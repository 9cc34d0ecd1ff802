/**
 * The request-independent logic of the incidents REST service: the UTC day
 * range a pair of dates selects, the SQL WHERE fragment and its parameters
 * built from the optional filters (with the 422 errors it raises), paging
 * arithmetic, the bucket check, the per-endpoint choice of filters and the
 * parsing of the allowed CORS origins.
 *
 * A `date` is a day number (days since 1970-01-01) and a UTC instant is a
 * number of seconds since 1970-01-01 00:00 UTC.
 */
module IncidentsApi {
  import opened Wrappers
  import opened Text
  import opened Sequences

  /** An `HTTPException`: a status code and its detail text. */
  datatype HttpError = HttpError(status: int, detail: string)

  const SecondsPerDay: int := 86400

  // ---------------------------------------------------------------------------
  // Date range

  /** The half-open interval of instants `[start, end)`; an absent bound is unbounded. */
  datatype Range = Range(start: Option<int>, end: Option<int>)

  const DateOrderError := HttpError(422, "date_from must be <= date_to")

  /** `date_range_utc`: midnight of `date_from` and midnight of the day after `date_to`. */
  function DateRangeUtc(dateFrom: Option<int>, dateTo: Option<int>): (r: Result<Range, HttpError>)
    ensures r.Err? <==> dateFrom.Some? && dateTo.Some? && dateFrom.value > dateTo.value
    ensures r.Err? ==> r.error == DateOrderError
    ensures r.Ok? ==> (r.value.start.Some? <==> dateFrom.Some?) && (r.value.end.Some? <==> dateTo.Some?)
  {
    if dateFrom.Some? && dateTo.Some? && dateFrom.value > dateTo.value then Err(DateOrderError)
    else
      Ok(Range(if dateFrom.Some? then Some(dateFrom.value * SecondsPerDay) else None,
               if dateTo.Some? then Some((dateTo.value + 1) * SecondsPerDay) else None))
  }

  predicate InRange(r: Range, t: int) {
    (r.start.None? || r.start.value <= t) && (r.end.None? || t < r.end.value)
  }

  /** The day an instant falls on. */
  function DayOf(t: int): int {
    t / SecondsPerDay
  }

  /**
   * An instant is inside the range exactly when its UTC day lies between
   * `date_from` and `date_to`, both inclusive.
   */
  lemma DateRangeSelectsDays(dateFrom: Option<int>, dateTo: Option<int>, t: int)
    requires DateRangeUtc(dateFrom, dateTo).Ok?
    ensures InRange(DateRangeUtc(dateFrom, dateTo).value, t) <==>
      (dateFrom.None? || dateFrom.value <= DayOf(t)) && (dateTo.None? || DayOf(t) <= dateTo.value)
  {
    var d := DayOf(t);
    assert d * SecondsPerDay <= t < (d + 1) * SecondsPerDay;
    if dateFrom.Some? {
      DayBounds(dateFrom.value, d);
    }
    if dateTo.Some? {
      DayBounds(dateTo.value + 1, d);
    }
  }

  lemma DayBounds(a: int, d: int)
    ensures a <= d <==> a * SecondsPerDay <= d * SecondsPerDay
  {
  }

  // ---------------------------------------------------------------------------
  // Allowed values

  const DirectionCodes: seq<string> := ["N", "NE", "E", "SE", "S", "SW", "W", "NW"]
  const SourceCodes: seq<string> := ["ARTILLERY", "MORTAR", "MLRS", "UAV_DROP", "OTHER"]

  /** Python's `repr` of a list of plain strings. */
  function PyList(xs: seq<string>): string {
    "[" + Join(Quoted(xs), ", ") + "]"
  }

  function Quoted(xs: seq<string>): (r: seq<string>)
    ensures |r| == |xs|
  {
    if xs == [] then [] else ["'" + xs[0] + "'"] + Quoted(xs[1..])
  }

  /** `f"direction must be one of {sorted(ALLOWED_DIR)}"`. */
  function DirectionError(): HttpError {
    HttpError(422, "direction must be one of " + PyList(SortedDistinct(DirectionCodes)))
  }

  /** `f"source_type must be one of {sorted(ALLOWED_SRC)}"`. */
  function SourceError(): HttpError {
    HttpError(422, "source_type must be one of " + PyList(SortedDistinct(SourceCodes)))
  }

  const IntensityError := HttpError(422, "min_intensity must be 1..5")

  /** `sorted(ALLOWED_DIR)`. */
  lemma SortedDirections()
    ensures SortedDistinct(DirectionCodes) == ["E", "N", "NE", "NW", "S", "SE", "SW", "W"]
  {
    var dirs := ["E", "N", "NE", "NW", "S", "SE", "SW", "W"];
    assert StrLess("E", "N") && StrLess("N", "NE") && StrLess("NE", "NW") && StrLess("NW", "S");
    assert StrLess("S", "SE") && StrLess("SE", "SW") && StrLess("SW", "W");
    SortedFromAdjacent(dirs);
    assert forall y :: y in dirs <==> y in DirectionCodes;
    StrictlySortedUnique(SortedDistinct(DirectionCodes), dirs);
  }

  /** `sorted(ALLOWED_SRC)`. */
  lemma SortedSources()
    ensures SortedDistinct(SourceCodes) == ["ARTILLERY", "MLRS", "MORTAR", "OTHER", "UAV_DROP"]
  {
    var srcs := ["ARTILLERY", "MLRS", "MORTAR", "OTHER", "UAV_DROP"];
    assert StrLess("ARTILLERY", "MLRS") && StrLess("MLRS", "MORTAR");
    assert StrLess("MORTAR", "OTHER") && StrLess("OTHER", "UAV_DROP");
    SortedFromAdjacent(srcs);
    assert forall y :: y in srcs <==> y in SourceCodes;
    StrictlySortedUnique(SortedDistinct(SourceCodes), srcs);
  }

  /** The direction detail lists the eight compass codes in sorted order. */
  lemma DirectionDetail()
    ensures DirectionError().detail == "direction must be one of " + PyList(["E", "N", "NE", "NW", "S", "SE", "SW", "W"])
  {
    SortedDirections();
  }

  /** The source detail lists the five source codes in sorted order. */
  lemma SourceDetail()
    ensures SourceError().detail == "source_type must be one of " + PyList(["ARTILLERY", "MLRS", "MORTAR", "OTHER", "UAV_DROP"])
  {
    SortedSources();
  }

  // ---------------------------------------------------------------------------
  // WHERE clause

  /** The optional query filters shared by every endpoint. */
  datatype Filters = Filters(
    dateFrom: Option<int>,
    dateTo: Option<int>,
    sector: Option<string>,
    direction: Option<string>,
    sourceType: Option<string>,
    minIntensity: Option<int>)

  /** A bound SQL parameter: an instant, a text or an integer. */
  datatype Param = PTime(seconds: int) | PText(text: string) | PInt(n: int)

  /** The columns a clause can test, in the order the clauses are built. */
  datatype Column = From | To | SectorCode | Direction | SourceType | Intensity

  const ColumnOrder: seq<Column> := [From, To, SectorCode, Direction, SourceType, Intensity]

  function Rank(c: Column): nat {
    match c
    case From => 0
    case To => 1
    case SectorCode => 2
    case Direction => 3
    case SourceType => 4
    case Intensity => 5
  }

  /** The driver's placeholder for a bound parameter. */
  const Slot: string := "%s"

  const FromClause: string := "event_time >= " + Slot
  const ToClause: string := "event_time < " + Slot
  const SectorClause: string := "sector_code = " + Slot
  const DirectionClause: string := "direction = " + Slot
  const SourceClause: string := "source_type = " + Slot
  const IntensityClause: string := "intensity >= " + Slot

  /** The SQL condition a column's clause adds. */
  function ClauseText(c: Column): string {
    match c
    case From => FromClause
    case To => ToClause
    case SectorCode => SectorClause
    case Direction => DirectionClause
    case SourceType => SourceClause
    case Intensity => IntensityClause
  }

  /** Python truthiness of an optional string: `None` and `""` are false. */
  predicate Present(s: Option<string>) {
    s.Some? && s.value != ""
  }

  /** The first 422 error `build_where` raises, if any: dates, then direction, then source, then intensity. */
  function Validate(f: Filters): Option<HttpError> {
    if DateRangeUtc(f.dateFrom, f.dateTo).Err? then Some(DateOrderError)
    else if Present(f.direction) && f.direction.value !in DirectionCodes then Some(DirectionError())
    else if Present(f.sourceType) && f.sourceType.value !in SourceCodes then Some(SourceError())
    else if f.minIntensity.Some? && !(1 <= f.minIntensity.value <= 5) then Some(IntensityError)
    else None
  }

  /** The parameter a column contributes, or None when its filter is inactive. */
  function ColumnParam(f: Filters, c: Column): Option<Param> {
    match c
    case From => if f.dateFrom.Some? then Some(PTime(f.dateFrom.value * SecondsPerDay)) else None
    case To => if f.dateTo.Some? then Some(PTime((f.dateTo.value + 1) * SecondsPerDay)) else None
    case SectorCode => if Present(f.sector) then Some(PText(f.sector.value)) else None
    case Direction => if Present(f.direction) then Some(PText(f.direction.value)) else None
    case SourceType => if Present(f.sourceType) then Some(PText(f.sourceType.value)) else None
    case Intensity => if f.minIntensity.Some? then Some(PInt(f.minIntensity.value)) else None
  }

  datatype Clause = Clause(column: Column, param: Param)

  /** The clause a column contributes: one when its filter is active, none otherwise. */
  function Step(f: Filters, c: Column): (r: seq<Clause>)
    ensures |r| <= 1
    ensures r == [] <==> ColumnParam(f, c).None?
    ensures r != [] ==> r[0] == Clause(c, ColumnParam(f, c).value)
  {
    match ColumnParam(f, c)
    case Some(p) => [Clause(c, p)]
    case None => []
  }

  /** The clauses of the active columns among `cols`, in the order of `cols`. */
  function Collect(f: Filters, cols: seq<Column>): (r: seq<Clause>)
    ensures |r| <= |cols|
    ensures forall i :: 0 <= i < |r| ==> r[i].column in cols && ColumnParam(f, r[i].column) == Some(r[i].param)
  {
    if cols == [] then [] else Collect(f, cols[..|cols| - 1]) + Step(f, cols[|cols| - 1])
  }

  /** The clauses `build_where` appends, one step per column in the fixed order. */
  function ActiveClauses(f: Filters): seq<Clause> {
    Step(f, From) + Step(f, To) + Step(f, SectorCode) + Step(f, Direction) + Step(f, SourceType) + Step(f, Intensity)
  }

  function Texts(cs: seq<Clause>): (r: seq<string>)
    ensures |r| == |cs| && forall i :: 0 <= i < |cs| ==> r[i] == ClauseText(cs[i].column)
  {
    if cs == [] then [] else [ClauseText(cs[0].column)] + Texts(cs[1..])
  }

  function Params(cs: seq<Clause>): (r: seq<Param>)
    ensures |r| == |cs| && forall i :: 0 <= i < |cs| ==> r[i] == cs[i].param
  {
    if cs == [] then [] else [cs[0].param] + Params(cs[1..])
  }

  /** `(" WHERE " + " AND ".join(clauses)) if clauses else ""`. */
  function WhereSql(clauses: seq<string>): string {
    if clauses != [] then " WHERE " + Join(clauses, " AND ") else ""
  }

  /** `build_where`'s result: the SQL fragment and its parameters. */
  datatype Where = Where(sql: string, params: seq<Param>)

  /** What `build_where` returns or raises for a set of filters. */
  function BuildWhereSpec(f: Filters): Result<Where, HttpError> {
    if Validate(f).Some? then Err(Validate(f).value)
    else Ok(Where(WhereSql(Texts(ActiveClauses(f))), Params(ActiveClauses(f))))
  }

  /** `[x]` when `b` holds, `[]` otherwise. */
  function Opt<T>(b: bool, x: T): (r: seq<T>)
    ensures |r| <= 1
  {
    if b then [x] else []
  }

  /**
   * `build_where`: checks the date order, then appends one clause and one
   * parameter per active filter, checking direction, source type and
   * intensity as it reaches them.
   */
  method BuildWhere(f: Filters) returns (r: Result<Where, HttpError>)
    ensures r.Err? <==> Validate(f).Some?
    ensures r.Err? ==> r.error == Validate(f).value
    ensures r.Ok? ==> r.value == Where(WhereSql(Texts(ActiveClauses(f))), Params(ActiveClauses(f)))
  {
    var range := DateRangeUtc(f.dateFrom, f.dateTo);
    if range.Err? {
      assert Validate(f) == Some(range.error);
      return Err(range.error);
    }
    var clauses: seq<string> := [];
    var params: seq<Param> := [];
    var start, end := range.value.start, range.value.end;
    clauses, params := AppendIf(clauses, params, start.Some?, FromClause, PTime(start.GetOr(0)));
    ghost var t := Opt(f.dateFrom.Some?, FromClause);
    ghost var q := Opt(f.dateFrom.Some?, PTime(start.GetOr(0)));
    assert clauses == t && params == q;
    clauses, params := AppendIf(clauses, params, end.Some?, ToClause, PTime(end.GetOr(0)));
    t, q := t + Opt(f.dateTo.Some?, ToClause), q + Opt(f.dateTo.Some?, PTime(end.GetOr(0)));
    assert clauses == t && params == q;
    clauses, params := AppendIf(clauses, params, Present(f.sector), SectorClause, PText(f.sector.GetOr("")));
    t, q := t + Opt(Present(f.sector), SectorClause), q + Opt(Present(f.sector), PText(f.sector.GetOr("")));
    if Present(f.direction) && f.direction.value !in DirectionCodes {
      assert Validate(f) == Some(DirectionError());
      return Err(DirectionError());
    }
    clauses, params := AppendIf(clauses, params, Present(f.direction), DirectionClause, PText(f.direction.GetOr("")));
    t, q := t + Opt(Present(f.direction), DirectionClause), q + Opt(Present(f.direction), PText(f.direction.GetOr("")));
    if Present(f.sourceType) && f.sourceType.value !in SourceCodes {
      assert Validate(f) == Some(SourceError());
      return Err(SourceError());
    }
    clauses, params := AppendIf(clauses, params, Present(f.sourceType), SourceClause, PText(f.sourceType.GetOr("")));
    t, q := t + Opt(Present(f.sourceType), SourceClause), q + Opt(Present(f.sourceType), PText(f.sourceType.GetOr("")));
    if f.minIntensity.Some? && !(1 <= f.minIntensity.value <= 5) {
      assert Validate(f) == Some(IntensityError);
      return Err(IntensityError);
    }
    clauses, params := AppendIf(clauses, params, f.minIntensity.Some?, IntensityClause, PInt(f.minIntensity.GetOr(0)));
    t, q := t + Opt(f.minIntensity.Some?, IntensityClause), q + Opt(f.minIntensity.Some?, PInt(f.minIntensity.GetOr(0)));
    assert Validate(f).None?;
    assert t == ActiveTexts(f);
    assert q == ActiveParams(f);
    ActiveListsAgree(f);
    r := Ok(Where(WhereSql(clauses), params));
  }

  /** `if active: clauses.append(text); params.append(p)`. */
  method AppendIf(clauses: seq<string>, params: seq<Param>, active: bool, text: string, p: Param)
    returns (clauses': seq<string>, params': seq<Param>)
    ensures clauses' == clauses + Opt(active, text)
    ensures params' == params + Opt(active, p)
  {
    clauses', params' := clauses, params;
    if active {
      clauses' := clauses' + [text];
      params' := params' + [p];
    }
  }

  /** The clause texts of the active filters, one optional append per filter. */
  function ActiveTexts(f: Filters): seq<string> {
    Opt(f.dateFrom.Some?, FromClause) + Opt(f.dateTo.Some?, ToClause)
    + Opt(Present(f.sector), SectorClause) + Opt(Present(f.direction), DirectionClause)
    + Opt(Present(f.sourceType), SourceClause) + Opt(f.minIntensity.Some?, IntensityClause)
  }

  /** The parameters of the active filters, one optional append per filter. */
  function ActiveParams(f: Filters): seq<Param>
    requires DateRangeUtc(f.dateFrom, f.dateTo).Ok?
  {
    var range := DateRangeUtc(f.dateFrom, f.dateTo).value;
    Opt(f.dateFrom.Some?, PTime(range.start.GetOr(0))) + Opt(f.dateTo.Some?, PTime(range.end.GetOr(0)))
    + Opt(Present(f.sector), PText(f.sector.GetOr(""))) + Opt(Present(f.direction), PText(f.direction.GetOr("")))
    + Opt(Present(f.sourceType), PText(f.sourceType.GetOr(""))) + Opt(f.minIntensity.Some?, PInt(f.minIntensity.GetOr(0)))
  }

  /** The lists `build_where` appends to are the texts and parameters of the active clauses. */
  lemma ActiveListsAgree(f: Filters)
    requires DateRangeUtc(f.dateFrom, f.dateTo).Ok?
    ensures ActiveTexts(f) == Texts(ActiveClauses(f))
    ensures ActiveParams(f) == Params(ActiveClauses(f))
  {
    ActiveTextsAgree(f);
    ActiveParamsAgree(f);
  }

  lemma ActiveTextsAgree(f: Filters)
    ensures ActiveTexts(f) == Texts(ActiveClauses(f))
  {
    var t3 := TextsFirstHalf(f);
    TextsSecondHalf(f, t3);
  }

  /** The texts of the first three steps. */
  lemma TextsFirstHalf(f: Filters) returns (t3: seq<string>)
    ensures t3 == Opt(f.dateFrom.Some?, FromClause) + Opt(f.dateTo.Some?, ToClause) + Opt(Present(f.sector), SectorClause)
    ensures Texts(Step(f, From) + Step(f, To) + Step(f, SectorCode)) == t3
  {
    var c1 := Step(f, From);
    assert [] + c1 == c1;
    var t1 := TextStage(f, From, [], [], f.dateFrom.Some?, FromClause);
    assert t1 == Opt(f.dateFrom.Some?, FromClause);
    var t2 := TextStage(f, To, c1, t1, f.dateTo.Some?, ToClause);
    t3 := TextStage(f, SectorCode, c1 + Step(f, To), t2, Present(f.sector), SectorClause);
  }

  /** The texts of all six steps, given those of the first three. */
  lemma TextsSecondHalf(f: Filters, t3: seq<string>)
    requires Texts(Step(f, From) + Step(f, To) + Step(f, SectorCode)) == t3
    ensures Texts(ActiveClauses(f)) == t3 + Opt(Present(f.direction), DirectionClause)
      + Opt(Present(f.sourceType), SourceClause) + Opt(f.minIntensity.Some?, IntensityClause)
  {
    var c3 := Step(f, From) + Step(f, To) + Step(f, SectorCode);
    var t4 := TextStage(f, Direction, c3, t3, Present(f.direction), DirectionClause);
    var c4 := c3 + Step(f, Direction);
    var t5 := TextStage(f, SourceType, c4, t4, Present(f.sourceType), SourceClause);
    var t6 := TextStage(f, Intensity, c4 + Step(f, SourceType), t5, f.minIntensity.Some?, IntensityClause);
  }

  lemma ActiveParamsAgree(f: Filters)
    requires DateRangeUtc(f.dateFrom, f.dateTo).Ok?
    ensures ActiveParams(f) == Params(ActiveClauses(f))
  {
    var range := DateRangeUtc(f.dateFrom, f.dateTo).value;
    var q3 := ParamsFirstHalf(f, range);
    ParamsSecondHalf(f, q3);
  }

  /** The parameters of the first three steps. */
  lemma ParamsFirstHalf(f: Filters, range: Range) returns (q3: seq<Param>)
    requires DateRangeUtc(f.dateFrom, f.dateTo) == Ok(range)
    ensures q3 == Opt(f.dateFrom.Some?, PTime(range.start.GetOr(0))) + Opt(f.dateTo.Some?, PTime(range.end.GetOr(0)))
      + Opt(Present(f.sector), PText(f.sector.GetOr("")))
    ensures Params(Step(f, From) + Step(f, To) + Step(f, SectorCode)) == q3
  {
    var c1 := Step(f, From);
    assert [] + c1 == c1;
    var q1 := ParamStage(f, From, [], [], f.dateFrom.Some?, PTime(range.start.GetOr(0)));
    assert q1 == Opt(f.dateFrom.Some?, PTime(range.start.GetOr(0)));
    var q2 := ParamStage(f, To, c1, q1, f.dateTo.Some?, PTime(range.end.GetOr(0)));
    q3 := ParamStage(f, SectorCode, c1 + Step(f, To), q2, Present(f.sector), PText(f.sector.GetOr("")));
  }

  /** The parameters of all six steps, given those of the first three. */
  lemma ParamsSecondHalf(f: Filters, q3: seq<Param>)
    requires Params(Step(f, From) + Step(f, To) + Step(f, SectorCode)) == q3
    ensures Params(ActiveClauses(f)) == q3 + Opt(Present(f.direction), PText(f.direction.GetOr("")))
      + Opt(Present(f.sourceType), PText(f.sourceType.GetOr(""))) + Opt(f.minIntensity.Some?, PInt(f.minIntensity.GetOr(0)))
  {
    var c3 := Step(f, From) + Step(f, To) + Step(f, SectorCode);
    var q4 := ParamStage(f, Direction, c3, q3, Present(f.direction), PText(f.direction.GetOr("")));
    var c4 := c3 + Step(f, Direction);
    var q5 := ParamStage(f, SourceType, c4, q4, Present(f.sourceType), PText(f.sourceType.GetOr("")));
    var q6 := ParamStage(f, Intensity, c4 + Step(f, SourceType), q5, f.minIntensity.Some?, PInt(f.minIntensity.GetOr(0)));
  }

  /** Appending one column's step appends its text when the column is active. */
  lemma TextStage(f: Filters, c: Column, cs: seq<Clause>, prefix: seq<string>, active: bool, text: string)
    returns (next: seq<string>)
    requires Texts(cs) == prefix
    requires active == ColumnParam(f, c).Some? && text == ClauseText(c)
    ensures next == prefix + Opt(active, text) && Texts(cs + Step(f, c)) == next
  {
    AppendStep(cs, f, c);
    next := prefix + Opt(active, text);
  }

  /** Appending one column's step appends its parameter when the column is active. */
  lemma ParamStage(f: Filters, c: Column, cs: seq<Clause>, prefix: seq<Param>, active: bool, p: Param)
    returns (next: seq<Param>)
    requires Params(cs) == prefix
    requires active == ColumnParam(f, c).Some? && (active ==> ColumnParam(f, c) == Some(p))
    ensures next == prefix + Opt(active, p) && Params(cs + Step(f, c)) == next
  {
    AppendStep(cs, f, c);
    next := prefix + Opt(active, p);
  }

  /** The six steps are the clauses collected over the column order. */
  lemma ActiveIsCollect(f: Filters)
    ensures ActiveClauses(f) == Collect(f, ColumnOrder)
  {
    var o := ColumnOrder;
    assert o[..0] == [];
    CollectNext(f, 0, From);
    var a := Step(f, From);
    assert Collect(f, o[..1]) == [] + a == a;
    CollectNext(f, 1, To);
    a := a + Step(f, To);
    assert Collect(f, o[..2]) == a;
    CollectNext(f, 2, SectorCode);
    a := a + Step(f, SectorCode);
    assert Collect(f, o[..3]) == a;
    CollectNext(f, 3, Direction);
    a := a + Step(f, Direction);
    assert Collect(f, o[..4]) == a;
    CollectNext(f, 4, SourceType);
    a := a + Step(f, SourceType);
    assert Collect(f, o[..5]) == a;
    CollectNext(f, 5, Intensity);
    a := a + Step(f, Intensity);
    assert o[..6] == o;
    assert Collect(f, o) == a;
  }

  /** Collecting one more column of the order appends that column's step. */
  lemma CollectNext(f: Filters, k: nat, c: Column)
    requires k < |ColumnOrder| && ColumnOrder[k] == c
    ensures Collect(f, ColumnOrder[..k + 1]) == Collect(f, ColumnOrder[..k]) + Step(f, c)
  {
    assert ColumnOrder[..k + 1][..k] == ColumnOrder[..k];
  }

  /** Appending one step's clause appends its text and its parameter. */
  lemma AppendStep(cs: seq<Clause>, f: Filters, c: Column)
    ensures Texts(cs + Step(f, c)) == Texts(cs) + (if ColumnParam(f, c).Some? then [ClauseText(c)] else [])
    ensures Params(cs + Step(f, c)) == Params(cs) + (if ColumnParam(f, c).Some? then [ColumnParam(f, c).value] else [])
  {
    if ColumnParam(f, c).None? {
      assert cs + Step(f, c) == cs;
    }
  }

  /** The fragment `build_where` returns has exactly one `%s` per parameter it returns. */
  lemma BuildWherePlaceholders(f: Filters)
    requires Validate(f).None?
    ensures Placeholders(BuildWhereSpec(f).value.sql) == |BuildWhereSpec(f).value.params|
  {
    WherePlaceholders(ActiveClauses(f));
  }

  /** Each built fragment carries exactly one `%s` per parameter. */
  lemma WherePlaceholders(cs: seq<Clause>)
    ensures Placeholders(WhereSql(Texts(cs))) == |Params(cs)|
  {
    var ts := Texts(cs);
    forall i | 0 <= i < |ts| ensures OneSlot(ts[i]) {
      ClauseHasOneSlot(cs[i].column);
    }
    if ts != [] {
      JoinPlaceholders(ts);
      NoSlot(" WHERE ");
      PlaceholdersConcat(" WHERE ", Join(ts, " AND "));
    }
  }

  /** A clause text: exactly one placeholder, and it does not end in `%`. */
  predicate OneSlot(t: string) {
    |t| >= 1 && t[|t| - 1] != '%' && Placeholders(t) == 1
  }

  lemma ClauseHasOneSlot(c: Column)
    ensures OneSlot(ClauseText(c))
  {
    match c
    case From => SlotAtEnd("event_time >= ");
    case To => SlotAtEnd("event_time < ");
    case SectorCode => SlotAtEnd("sector_code = ");
    case Direction => SlotAtEnd("direction = ");
    case SourceType => SlotAtEnd("source_type = ");
    case Intensity => SlotAtEnd("intensity >= ");
  }

  /** A `%`-free prefix followed by `%s` holds exactly one placeholder. */
  lemma SlotAtEnd(p: string)
    requires '%' !in p
    ensures OneSlot(p + "%s")
  {
    NoSlot(p);
    PlaceholdersConcat(p, "%s");
  }

  /** A text without `%` has no placeholder. */
  lemma {:induction false} NoSlot(t: string)
    requires '%' !in t
    ensures Placeholders(t) == 0
  {
    if |t| >= 2 {
      NoSlot(t[1..]);
    }
  }

  lemma {:induction false} JoinPlaceholders(ts: seq<string>)
    requires ts != []
    requires forall i :: 0 <= i < |ts| ==> OneSlot(ts[i])
    ensures Placeholders(Join(ts, " AND ")) == |ts|
  {
    if |ts| > 1 {
      JoinPlaceholders(ts[1..]);
      var rest := Join(ts[1..], " AND ");
      assert Join(ts, " AND ") == ts[0] + (" AND " + rest);
      NoSlot(" AND ");
      PlaceholdersConcat(" AND ", rest);
      PlaceholdersConcat(ts[0], " AND " + rest);
    }
  }

  predicate Ordered(cs: seq<Clause>) {
    forall i, j :: 0 <= i < j < |cs| ==> Rank(cs[i].column) < Rank(cs[j].column)
  }

  predicate Increasing(cols: seq<Column>) {
    forall i, j :: 0 <= i < j < |cols| ==> Rank(cols[i]) < Rank(cols[j])
  }

  lemma SnocOrdered(init: seq<Clause>, x: Clause)
    requires Ordered(init)
    requires forall k :: 0 <= k < |init| ==> Rank(init[k].column) < Rank(x.column)
    ensures Ordered(init + [x])
  {
  }

  /** Collecting over columns of increasing rank gives clauses of increasing rank. */
  lemma {:induction false} CollectOrdered(f: Filters, cols: seq<Column>)
    requires Increasing(cols)
    ensures Ordered(Collect(f, cols))
  {
    if cols != [] {
      var n := |cols| - 1;
      var prefix := cols[..n];
      assert Increasing(prefix) by {
        forall i, j | 0 <= i < j < |prefix| ensures Rank(prefix[i]) < Rank(prefix[j]) {
          assert prefix[i] == cols[i] && prefix[j] == cols[j];
        }
      }
      CollectOrdered(f, prefix);
      var init := Collect(f, prefix);
      var step := Step(f, cols[n]);
      assert Collect(f, cols) == init + step;
      if step != [] {
        forall k | 0 <= k < |init| ensures Rank(init[k].column) < Rank(cols[n]) {
          var m :| 0 <= m < |cols[..n]| && cols[..n][m] == init[k].column;
          assert cols[m] == init[k].column;
        }
        assert step == [step[0]];
        SnocOrdered(init, step[0]);
      } else {
        assert Collect(f, cols) == init;
      }
    }
  }

  /** An active column among `cols` has a clause: the one at position i. */
  lemma {:induction false} CollectComplete(f: Filters, cols: seq<Column>, c: Column) returns (i: nat)
    requires c in cols && ColumnParam(f, c).Some?
    ensures i < |Collect(f, cols)| && Collect(f, cols)[i].column == c
  {
    var n := |cols| - 1;
    var init := Collect(f, cols[..n]);
    assert Collect(f, cols) == init + Step(f, cols[n]);
    if cols[n] == c {
      i := |init|;
    } else {
      assert c in cols[..n] by {
        var m :| 0 <= m < |cols| && cols[m] == c;
        assert cols[..n][m] == c;
      }
      i := CollectComplete(f, cols[..n], c);
    }
  }

  /** Every clause belongs to an active column and carries that column's parameter. */
  lemma ActiveClausesSound(f: Filters)
    ensures var cs := ActiveClauses(f);
      forall i :: 0 <= i < |cs| ==> ColumnParam(f, cs[i].column) == Some(cs[i].param)
  {
    ActiveIsCollect(f);
  }

  /** The columns are listed by rank: the rank of each is its position. */
  lemma ColumnOrderIncreasing()
    ensures Increasing(ColumnOrder)
  {
    forall i | 0 <= i < |ColumnOrder| ensures Rank(ColumnOrder[i]) == i {
    }
  }

  lemma InColumnOrder(c: Column)
    ensures c in ColumnOrder
  {
    assert ColumnOrder[Rank(c)] == c;
  }

  /**
   * The fragment lists, in the fixed order date_from, date_to, sector,
   * direction, source_type, min_intensity, one clause per active filter
   * and no other, each with its own parameter.
   */
  lemma BuildWhereClauses(f: Filters)
    ensures var cs := ActiveClauses(f);
      && Ordered(cs)
      && (forall i :: 0 <= i < |cs| ==> ColumnParam(f, cs[i].column) == Some(cs[i].param))
      && (forall c :: ColumnParam(f, c).Some? <==> exists i :: 0 <= i < |cs| && cs[i].column == c)
  {
    ActiveIsCollect(f);
    ColumnOrderIncreasing();
    CollectOrdered(f, ColumnOrder);
    forall c | ColumnParam(f, c).Some? ensures exists i :: 0 <= i < |Collect(f, ColumnOrder)| && Collect(f, ColumnOrder)[i].column == c {
      InColumnOrder(c);
      var i := CollectComplete(f, ColumnOrder, c);
    }
  }

  /** Without an active filter the fragment is empty; with one it starts with " WHERE ". */
  lemma EmptyWhere(f: Filters)
    requires Validate(f).None?
    ensures var w := BuildWhereSpec(f).value;
      (w.sql == "" <==> forall c :: ColumnParam(f, c).None?) &&
      (w.sql != "" ==> w.sql[..7] == " WHERE ")
  {
    BuildWhereClauses(f);
    var cs := ActiveClauses(f);
    if cs != [] {
      assert ColumnParam(f, cs[0].column).Some?;
    }
  }

  /** `min_intensity` is tested with `is not None`, so 0 is rejected rather than ignored. */
  lemma ZeroIntensityRejected(f: Filters)
    requires Validate(f.(minIntensity := None)).None?
    ensures BuildWhereSpec(f.(minIntensity := Some(0))) == Err(IntensityError)
    ensures forall n :: 1 <= n <= 5 ==> BuildWhereSpec(f.(minIntensity := Some(n))).Ok?
  {
  }

  /** An empty direction or source type is no filter at all, so it can never fail the check. */
  lemma EmptyCodesIgnored(f: Filters)
    ensures BuildWhereSpec(f.(direction := Some(""), sourceType := Some(""))) ==
            BuildWhereSpec(f.(direction := None, sourceType := None))
  {
    var a := f.(direction := Some(""), sourceType := Some(""));
    var b := f.(direction := None, sourceType := None);
    assert !Present(a.direction) && !Present(a.sourceType);
    assert Validate(a) == Validate(b);
    forall c ensures ColumnParam(a, c) == ColumnParam(b, c) {
    }
    SameParamsSameClauses(a, b);
  }

  /** Filters that give every column the same parameter give the same clauses. */
  lemma SameParamsSameClauses(a: Filters, b: Filters)
    requires forall c :: ColumnParam(a, c) == ColumnParam(b, c)
    ensures ActiveClauses(a) == ActiveClauses(b)
  {
    assert Step(a, From) == Step(b, From);
    assert Step(a, To) == Step(b, To);
    assert Step(a, SectorCode) == Step(b, SectorCode);
    assert Step(a, Direction) == Step(b, Direction);
    assert Step(a, SourceType) == Step(b, SourceType);
    assert Step(a, Intensity) == Step(b, Intensity);
  }

  // ---------------------------------------------------------------------------
  // Paging

  /** `max(1, (total + page_size - 1) // page_size) if total else 1`. */
  function TotalPages(total: nat, pageSize: int): (r: int)
    requires 1 <= pageSize <= 200
    ensures r >= 1
    ensures total == 0 ==> r == 1
  {
    if total != 0 then (if (total + pageSize - 1) / pageSize >= 1 then (total + pageSize - 1) / pageSize else 1)
    else 1
  }

  /** `total_pages` is the ceiling of `total / page_size`: the last page is neither empty nor overfull. */
  lemma TotalPagesCeiling(total: nat, pageSize: int)
    requires 1 <= pageSize <= 200
    requires total > 0
    ensures (TotalPages(total, pageSize) - 1) * pageSize < total <= TotalPages(total, pageSize) * pageSize
  {
    var q := (total + pageSize - 1) / pageSize;
    var m := (total + pageSize - 1) % pageSize;
    assert q * pageSize + m == total + pageSize - 1;
    assert q >= 1;
  }

  /** `offset = (page - 1) * page_size`. */
  function Offset(page: int, pageSize: int): nat
    requires page >= 1 && 1 <= pageSize <= 200
  {
    MulMonotone(0, page - 1, pageSize);
    (page - 1) * pageSize
  }

  /** Every page up to `total_pages` starts at an existing row, and the page after the last does not. */
  lemma OffsetWithinTotal(total: nat, page: int, pageSize: int)
    requires page >= 1 && 1 <= pageSize <= 200 && total > 0
    ensures page <= TotalPages(total, pageSize) <==> Offset(page, pageSize) < total
  {
    TotalPagesCeiling(total, pageSize);
    var t := TotalPages(total, pageSize);
    if page <= t {
      MulMonotone(page - 1, t - 1, pageSize);
    } else {
      MulMonotone(t, page - 1, pageSize);
    }
  }

  lemma MulMonotone(a: int, b: int, k: nat)
    requires a <= b
    ensures a * k <= b * k
  {
  }

  // ---------------------------------------------------------------------------
  // Endpoints

  /** The endpoints that build a WHERE fragment. */
  datatype Endpoint = Incidents | Summary | Timeseries | BySource | ByDirection | HeatmapCells

  const BucketError := HttpError(422, "bucket must be day|week")

  /** `bucket not in {"day", "week"}` raises 422. */
  function ValidateBucket(bucket: string): (r: Option<HttpError>)
    ensures r.None? <==> bucket == "day" || bucket == "week"
  {
    if bucket == "day" || bucket == "week" then None else Some(BucketError)
  }

  /** The filters an endpoint passes on: by_source drops source_type, by_direction drops direction, heatmap drops sector. */
  function EndpointFilters(e: Endpoint, f: Filters): Filters {
    match e
    case BySource => f.(sourceType := None)
    case ByDirection => f.(direction := None)
    case HeatmapCells => f.(sector := None)
    case _ => f
  }

  /** The WHERE fragment an endpoint builds, after its bucket check where it has one. */
  function EndpointWhere(e: Endpoint, bucket: string, f: Filters): Result<Where, HttpError> {
    if (e == Timeseries || e == HeatmapCells) && ValidateBucket(bucket).Some? then Err(BucketError)
    else BuildWhereSpec(EndpointFilters(e, f))
  }

  /** A bad bucket is reported before any filter is looked at. */
  lemma BucketCheckedFirst(e: Endpoint, bucket: string, f: Filters)
    requires e == Timeseries || e == HeatmapCells
    requires bucket != "day" && bucket != "week"
    ensures EndpointWhere(e, bucket, f) == Err(BucketError)
  {
  }

  /** by_source never filters on source type, whatever value the caller sends. */
  lemma BySourceIgnoresSource(bucket: string, f: Filters, s: Option<string>)
    ensures EndpointWhere(BySource, bucket, f) == EndpointWhere(BySource, bucket, f.(sourceType := s))
    ensures var cs := ActiveClauses(EndpointFilters(BySource, f));
      forall i :: 0 <= i < |cs| ==> cs[i].column != SourceType
  {
    assert EndpointFilters(BySource, f) == EndpointFilters(BySource, f.(sourceType := s));
    ActiveClausesSound(EndpointFilters(BySource, f));
  }

  /** by_direction never filters on direction, whatever value the caller sends. */
  lemma ByDirectionIgnoresDirection(bucket: string, f: Filters, d: Option<string>)
    ensures EndpointWhere(ByDirection, bucket, f) == EndpointWhere(ByDirection, bucket, f.(direction := d))
    ensures var cs := ActiveClauses(EndpointFilters(ByDirection, f));
      forall i :: 0 <= i < |cs| ==> cs[i].column != Direction
  {
    assert EndpointFilters(ByDirection, f) == EndpointFilters(ByDirection, f.(direction := d));
    ActiveClausesSound(EndpointFilters(ByDirection, f));
  }

  /** The heatmap never filters on sector, whatever value the caller sends. */
  lemma HeatmapIgnoresSector(bucket: string, f: Filters, s: Option<string>)
    ensures EndpointWhere(HeatmapCells, bucket, f) == EndpointWhere(HeatmapCells, bucket, f.(sector := s))
    ensures var cs := ActiveClauses(EndpointFilters(HeatmapCells, f));
      forall i :: 0 <= i < |cs| ==> cs[i].column != SectorCode
  {
    assert EndpointFilters(HeatmapCells, f) == EndpointFilters(HeatmapCells, f.(sector := s));
    ActiveClausesSound(EndpointFilters(HeatmapCells, f));
  }

  // ---------------------------------------------------------------------------
  // CORS origins

  /** An entry of the origin list: non-empty, already trimmed, without a comma. */
  predicate CleanOrigin(o: string) {
    o != [] && Strip(o) == o && ',' !in o
  }

  predicate AllClean(os: seq<string>) {
    forall i :: 0 <= i < |os| ==> CleanOrigin(os[i])
  }

  /** `["*"] if s.strip() == "*" else [o.strip() for o in s.split(",") if o.strip()]`. */
  function AllowOrigins(s: string): (r: seq<string>)
    ensures AllClean(r)
  {
    if Strip(s) == "*" then
      StarOrigin();
      ["*"]
    else
      TrimmedEntries(Split(s, ','))
  }

  /** The wildcard origin is a single non-blank character other than a comma. */
  lemma StarOrigin()
    ensures AllClean(["*"])
  {
    var star := "*";
    assert Strip(star) == star by {
      assert |star| == 1 && star[0] == '*' && !IsPySpace('*');
      TrimIdentity(star, IsPySpace);
    }
    assert ',' !in star;
    var os := [star];
    forall i | 0 <= i < |os| ensures CleanOrigin(os[i]) {
      assert os[i] == star;
    }
  }

  /** `[o.strip() for o in parts]`. */
  function StripAll(parts: seq<string>): (r: seq<string>)
    ensures |r| == |parts| && forall i :: 0 <= i < |parts| ==> r[i] == Strip(parts[i])
  {
    seq(|parts|, i requires 0 <= i < |parts| => Strip(parts[i]))
  }

  predicate NonBlank(t: string) {
    t != []
  }

  /** `[t for t in StripAll(parts) if t]`: the non-blank trimmed pieces, in order. */
  function TrimmedEntries(parts: seq<string>): (r: seq<string>)
    requires forall i :: 0 <= i < |parts| ==> ',' !in parts[i]
    ensures AllClean(r)
  {
    var ts := StripAll(parts);
    var r := Filter(ts, NonBlank);
    forall i | 0 <= i < |r| ensures CleanOrigin(r[i]) {
      var j :| 0 <= j < |ts| && ts[j] == r[i];
      StrippedClean(parts[j]);
    }
    r
  }

  /** The non-blank trim of a comma-free string is a clean origin. */
  lemma StrippedClean(p: string)
    requires ',' !in p && Strip(p) != []
    ensures CleanOrigin(Strip(p))
  {
    TrimIdempotent(p, IsPySpace);
  }

  /**
   * Without the wildcard, the allowed origins are exactly the non-blank
   * trimmed comma-separated pieces of the setting.
   */
  lemma AllowOriginsMember(s: string, o: string)
    ensures Strip(s) != "*" ==>
      (o in AllowOrigins(s) <==>
        o != [] && exists i :: 0 <= i < |Split(s, ',')| && Strip(Split(s, ',')[i]) == o)
  {
    if Strip(s) != "*" {
      NoWildcard(s);
      TrimmedEntriesMember(Split(s, ','), o);
    }
  }

  lemma NoWildcard(s: string)
    requires Strip(s) != "*"
    ensures AllowOrigins(s) == TrimmedEntries(Split(s, ','))
  {
  }

  /** An origin is kept if and only if it is the non-blank trim of one of the pieces. */
  lemma TrimmedEntriesMember(parts: seq<string>, o: string)
    requires forall i :: 0 <= i < |parts| ==> ',' !in parts[i]
    ensures o in TrimmedEntries(parts) <==> o != [] && exists i :: 0 <= i < |parts| && Strip(parts[i]) == o
  {
    var ts := StripAll(parts);
    var r := TrimmedEntries(parts);
    assert r == Filter(ts, NonBlank);
    if o in r {
      var k :| 0 <= k < |r| && r[k] == o;
      var j :| 0 <= j < |ts| && ts[j] == o;
      assert Strip(parts[j]) == o;
    }
    if o != [] && exists i :: 0 <= i < |parts| && Strip(parts[i]) == o {
      var i :| 0 <= i < |parts| && Strip(parts[i]) == o;
      assert ts[i] == o && NonBlank(ts[i]);
    }
  }

  /**
   * A comma-separated list of trimmed, non-empty origins reads back as that
   * same list.
   */
  lemma AllowOriginsRoundTrip(origins: seq<string>)
    requires |origins| >= 1 && AllClean(origins)
    ensures AllowOrigins(Join(origins, ",")) == origins
  {
    var s := Join(origins, ",");
    SplitJoin(origins, ',');
    TrimmedAll(origins);
    if Strip(s) == "*" {
      JoinEnds(origins);
      TrimIdentity(s, IsPySpace);
      if |origins| > 1 {
        JoinLength(origins);
      }
    }
  }

  lemma TrimmedAll(parts: seq<string>)
    requires AllClean(parts)
    ensures TrimmedEntries(parts) == parts
  {
    var ts := StripAll(parts);
    assert ts == parts;
    FilterAll(parts, NonBlank);
  }

  lemma {:induction false} JoinEnds(parts: seq<string>)
    requires |parts| >= 1
    requires forall i :: 0 <= i < |parts| ==> parts[i] != []
    ensures var s := Join(parts, ",");
      s != [] && s[0] == parts[0][0] && s[|s| - 1] == parts[|parts| - 1][|parts[|parts| - 1]| - 1]
  {
    if |parts| > 1 {
      var rest := parts[1..];
      JoinEnds(rest);
      var j := Join(rest, ",");
      var s := parts[0] + "," + j;
      assert Join(parts, ",") == s;
      assert s[0] == parts[0][0];
      assert s[|s| - 1] == j[|j| - 1];
      assert rest[|rest| - 1] == parts[|parts| - 1];
    }
  }

  lemma JoinLength(parts: seq<string>)
    requires |parts| >= 2
    requires forall i :: 0 <= i < |parts| ==> parts[i] != []
    ensures |Join(parts, ",")| >= 3
  {
    assert Join(parts, ",") == parts[0] + "," + Join(parts[1..], ",");
    assert Join(parts[1..], ",") != [] by {
      var rest := parts[1..];
      if |rest| > 1 {
        assert Join(rest, ",") == rest[0] + "," + Join(rest[1..], ",");
      }
    }
  }
}

# Incident dashboard and lecture pages, modelled in Dafny

This project models the logic of a small teaching repository: an analytics
dashboard for incident reports (a browser front-end over a REST API), and four
self-contained lecture pages:

- **Incident dashboard** (`Exam/2025/sample1/frontend/app.js`). It builds query strings from the filter
  form, calls the API and unpacks errors, and pages through incidents with
  previous/next buttons. It also draws a bar chart of counts and flags
  anomalies (points above mean + 2 sample standard deviations). Finally it
  fills a sector-by-period heatmap and ranks the top five sectors.
- **Incident REST API** (`Exam/2025/sample1/rest/main.py`). It checks the date range (UTC days),
  validates the direction, source type and intensity filters, and assembles the
  SQL `WHERE` fragment with its parameter list. It also does page arithmetic,
  checks the `bucket` argument, and reads the CORS origin list.
- **Learner progress page** (`Theme5/aLection56/2025-learn/script.js`). It tracks module completion
  and the overall percentage, and scores the opening and final quizzes. It
  also runs the contrast choice, the drag-and-drop matching, the hotspot hunt
  with its "remaining" counter, and restores stored progress.
- **Lecture teacher panel** (`Theme5/aLection56/2025-step/script.js`). It runs the block countdown with
  its `mm:ss` face and progress bar, the break timer, and the "next block"
  preview. It also handles section highlighting and the tag-filtered gallery
  with its chips.
- **Weekly metrics dashboard** (`Theme5/aLection56/2025/LiamInspired/sample1/script.js`). It indexes
  metrics by id, aggregates two weeks by sum or average, and computes the
  delta badge and trend text. It also sets the risk bands, picks the top-three
  alerts and runs the sector selector.
- **Noise demo page** (`Theme5/aLection56/2025/script.js`). It provides the noise slider and its
  bars, the chart-type catalogue with its category buttons, and the
  three-question quiz.

Pure computations are functions with contracts, plus lemmas relating them.
The pages' mutable state is modelled as classes whose methods update fields in
place and are proved against those functions: the dashboard's `state`, the
learner's `state`, the lecture timers, the chart buttons, the noise slider and
its bar container. Loops that accumulate or mutate step by step are methods
with `while` loops and invariants: `DashboardQuery.Qs`,
`DashboardCharts.FillCellMap` and `DashboardCharts.RenderTopSectors`, the
learner's quiz and drag-and-drop checks, `NoiseDemo.RenderBars`,
`NoiseDemo.ChartButtons.Click` and `NoiseDemo.CheckQuiz`; the straight-line
`build_where` is the method `IncidentsApi.BuildWhere`. Comprehension-style
loops (`map`, `filter`, `reduce`, `find`, `forEach` over a list) are recursive
functions, such as `Sequences.Filter`, `WeeklyMetrics.Sum`,
`WeeklyMetrics.MetricMap`, `WeeklyMetrics.ToAlerts`, `LectureStep.Gallery`,
`LectureStep.Highlight` and `DashboardCharts.SectorSum`.

JavaScript's value semantics are written out in `JsValues`:

- `Number(s)` can give NaN, which is modelled as an `Option`.
- `Math.round` rounds half up.
- `%` truncates.
- `String(v)` is modelled per value kind.

`Text` and `Sequences` hold the string and sequence helpers shared by all
modules. Integer arithmetic is unbounded. Quantities the source computes
with fractions (averages, ratios, opacities, bar widths) are exact `real`s.

## Model

| member | source | states |
|---|---|---|
| DashboardQuery.SetParamFresh | Exam/2025/sample1/frontend/app.js:68-73 | `URLSearchParams.set` with a name not yet present appends exactly that pair |
| DashboardQuery.Qs | Exam/2025/sample1/frontend/app.js:68-75 | the loop over the entries yields the serialization of the kept pairs: one `k=String(v)` per entry that is not undefined, null or "", in entry order |
| DashboardQuery.KeptExactly | Exam/2025/sample1/frontend/app.js:70-72 | a pair is in the query if and only if some entry has that key, a value that is not undefined/null/"", and that value's string form |
| DashboardQuery.ZeroAndFalseKept | Exam/2025/sample1/frontend/app.js:71 | 0 and false are not skipped: they reach the query as "0" and "false" |
| DashboardQuery.SerializeRoundTrip | Exam/2025/sample1/frontend/app.js:74 | with no `&` or `=` in names and values, splitting the query on `&` and `=` gives back every pair in order |
| DashboardQuery.OrNull | Exam/2025/sample1/frontend/app.js:80-84 | `value or null` is null exactly for the empty string and the value itself otherwise |
| DashboardQuery.GetFilters | Exam/2025/sample1/frontend/app.js:77-87 | each field is `value or null`; the sector is the trimmed input, null when it is all blanks; the minimum intensity is `Number(value)` when the input is non-empty and parses, else null |
| DashboardQuery.FilterParams | Exam/2025/sample1/frontend/app.js:79-86 | the filter object has six entries with distinct keys |
| DashboardQuery.KeyKept | Exam/2025/sample1/frontend/app.js:70-72 | with distinct keys, an entry's key reaches the query if and only if its value is not skipped |
| DashboardQuery.FormQueryKeys | Exam/2025/sample1/frontend/app.js:77-87 | the query of the form's filters carries each key if and only if its input was filled in (sector: not all blanks; intensity: parses) |
| DashboardQuery.FilterParamsOmitted | Exam/2025/sample1/frontend/app.js:70-86 | each of the six entries is dropped from the query exactly when its filter is null or an empty string; `min_intensity` only when it is null |
| DashboardQuery.FormParamsOmitted | Exam/2025/sample1/frontend/app.js:70-87 | an entry read from the form is dropped exactly when its input is empty (for the sector: blank) or, for `min_intensity`, when it does not read as a number |
| DashboardQuery.BodyData | Exam/2025/sample1/frontend/app.js:93-94 | an empty body or one JSON.parse rejects gives null |
| DashboardQuery.ApiGet | Exam/2025/sample1/frontend/app.js:89-100 | succeeds if and only if the status is 2xx, returning the parsed body; otherwise fails with "status statusText: detail" |
| DashboardQuery.ErrorDetailCases | Exam/2025/sample1/frontend/app.js:96 | the detail is `data.detail`, else `data.message`, else the raw text, case by case |
| DashboardQuery.UnparseableBody | Exam/2025/sample1/frontend/app.js:94-98 | an unparseable body gives null on success and the raw text in the message on failure |
| DashboardQuery.ObjectListDetail | Exam/2025/sample1/frontend/app.js:96 | a body whose `detail` is a list of objects gives one "[object Object]" per object, comma-joined, as `String` of an array does |
| DashboardQuery.ValidationErrorMessage | Exam/2025/sample1/frontend/app.js:95-97 | a 422 response whose `detail` holds one error object fails with "422 statusText: [object Object]" |
| DashboardQuery.ErrorMessageStatus | Exam/2025/sample1/frontend/app.js:97 | the message of a failed call starts with the status code's digits, which read back as the status, then a space |
| DashboardCharts.MaxCount | Exam/2025/sample1/frontend/app.js:118 | the maximum bounds every count and is one of them |
| DashboardCharts.BarWidth | Exam/2025/sample1/frontend/app.js:128 | 0 when the largest count is 0; otherwise within half a unit of 710 · count / max, as `Math.round` of that proportion |
| DashboardCharts.BarWidthBounds | Exam/2025/sample1/frontend/app.js:128 | a bar's width lies in 0..710, the largest count fills the span, a zero count gets width 0 |
| DashboardCharts.BarWidthMonotone | Exam/2025/sample1/frontend/app.js:128 | a larger count never gets a shorter bar |
| DashboardCharts.RenderBarChart | Exam/2025/sample1/frontend/app.js:103-157 | the placeholder if and only if there are no items; otherwise one bar per item with its key and the width `BarWidth(count, max)` of its count against the largest count, within the span, and some bar full (or its count 0) |
| DashboardCharts.RenderBarChartMonotone | Exam/2025/sample1/frontend/app.js:126-128 | bars are ordered as their counts are |
| DashboardCharts.HalfBarExample | Exam/2025/sample1/frontend/app.js:128 | counts 10 and 5 give widths 710 and 355 |
| DashboardCharts.SquaredDeviation | Exam/2025/sample1/frontend/app.js:216 | the sum of squared deviations is never negative |
| DashboardCharts.Variance | Exam/2025/sample1/frontend/app.js:216 | the sample variance (divisor n − 1) is never negative |
| DashboardCharts.AboveThresholdIsMeanPlusTwoSd | Exam/2025/sample1/frontend/app.js:217-220 | the square-root-free test agrees with `count > mean + 2·sd` for any sd ≥ 0 with sd² = variance |
| DashboardCharts.MeanTimesLength | Exam/2025/sample1/frontend/app.js:214 | the mean times the number of points is the sum of the counts |
| DashboardCharts.ComputeAnomalies | Exam/2025/sample1/frontend/app.js:210-226 | "insufficient" if and only if fewer than two points; otherwise the mean is `Mean` (the sum over n) and the variance is `Variance`, the sample variance with the n − 1 divisor, and the anomalies are exactly the points above the threshold they give |
| DashboardCharts.AnomaliesInOrder | Exam/2025/sample1/frontend/app.js:220 | the anomalies keep the order of the series |
| DashboardCharts.ExcludedBelowThreshold | Exam/2025/sample1/frontend/app.js:218-220 | a point not flagged lies at or below mean + 2·sd |
| DashboardCharts.FlaggedAboveThreshold | Exam/2025/sample1/frontend/app.js:215-222 | with sd the square root of the sample variance, a point is among the anomalies if and only if its count exceeds mean + 2·sd |
| DashboardCharts.NoAnomalyExample | Exam/2025/sample1/frontend/app.js:210-226 | [10, 12, 11, 13, 50] has no anomaly |
| DashboardCharts.FivePointOutlierNotFlagged | Exam/2025/sample1/frontend/app.js:210-226 | [10, 10, 10, 10, 100] has no anomaly (see the note below) |
| DashboardCharts.EightPointStatistics | Exam/2025/sample1/frontend/app.js:215-216 | seven 10s and a 100 have mean 21.25 and sample variance 1012.5 |
| DashboardCharts.EightPointOutlierFlagged | Exam/2025/sample1/frontend/app.js:210-226 | in seven 10s and a 100, exactly the 100 is flagged |
| DashboardCharts.HeatKeyInjective | Exam/2025/sample1/frontend/app.js:246 | for periods without underscores, the key `${sector}__${period}` determines the sector and the period |
| DashboardCharts.ScaleMax | Exam/2025/sample1/frontend/app.js:243-248 | the running maximum starts at 1, bounds every count, and is 1 or one of the counts |
| DashboardCharts.CellMapLookup | Exam/2025/sample1/frontend/app.js:244-277 | reading the value map for a sector and period gives the last count written for them, or 0 |
| DashboardCharts.FillCellMap | Exam/2025/sample1/frontend/app.js:242-249 | the loop builds the value map and the scale maximum |
| DashboardCharts.RenderHeatmap | Exam/2025/sample1/frontend/app.js:229-296 | the placeholder if and only if there are no cells; otherwise the rows are the first 30 sorted distinct sectors, the columns the last 12 sorted distinct periods, and each cell holds the value map's entry, at most the maximum |
| DashboardCharts.GridValues | Exam/2025/sample1/frontend/app.js:269-285 | one row per shown sector and one entry per shown period, each the map entry for that sector and period or 0 |
| DashboardCharts.GridBounded | Exam/2025/sample1/frontend/app.js:277-278 | when no stored count exceeds the scale maximum, no grid entry does, so `v / max` is at most 1 |
| DashboardCharts.CellMapBounded | Exam/2025/sample1/frontend/app.js:247-248 | every stored count is at most the scale maximum |
| DashboardCharts.HeatmapOpacity | Exam/2025/sample1/frontend/app.js:277-280 | every cell's `v / max` lies in [0, 1], and a cell with no input reads 0 |
| DashboardCharts.HeatmapDimensions | Exam/2025/sample1/frontend/app.js:237-269 | the grid has min(12, distinct periods) columns and min(30, distinct sectors) rows |
| DashboardCharts.TotalsCorrect | Exam/2025/sample1/frontend/app.js:339-342 | the accumulated Map has one entry per sector, each with the sum of that sector's counts |
| DashboardCharts.TopSectorsCorrect | Exam/2025/sample1/frontend/app.js:343 | exactly min(5, number of distinct sectors) entries, largest first, each sector's own total, no sector twice, and every sector left out totals no more than the last one shown |
| DashboardCharts.RenderTopSectors | Exam/2025/sample1/frontend/app.js:335-349 | the accumulation loop and the sort give the top-five list |
| DashboardPaging.Dashboard.constructor | Exam/2025/sample1/frontend/app.js:3-8 | page 1, page size 25, one page, no rows |
| DashboardPaging.Dashboard.OnApply | Exam/2025/sample1/frontend/app.js:415 | back to page 1, and a reload |
| DashboardPaging.Dashboard.OnReset | Exam/2025/sample1/frontend/app.js:417-427 | the six inputs are cleared, the bucket is "week", back to page 1, and a reload |
| DashboardPaging.Dashboard.OnPageSize | Exam/2025/sample1/frontend/app.js:429-433 | the page size becomes `Number(value)`, back to page 1, and a reload |
| DashboardPaging.Dashboard.OnPrev | Exam/2025/sample1/frontend/app.js:435-437 | one page back and a reload only above page 1 |
| DashboardPaging.Dashboard.OnNext | Exam/2025/sample1/frontend/app.js:438-440 | one page on and a reload only below the last page |
| DashboardPaging.Dashboard.OnPageLoaded | Exam/2025/sample1/frontend/app.js:397-404 | stores `total_pages` or 1 and `items` or [], then disables the buttons that would do nothing |
| DashboardPaging.ResetClearsFilters | Exam/2025/sample1/frontend/app.js:417-427 | after a reset no filter is sent |
| DashboardPaging.DisabledMeansNoOp | Exam/2025/sample1/frontend/app.js:403-440 | a button is disabled if and only if its click would not reload; a disabled click changes nothing; an enabled one moves exactly one page |
| DashboardPaging.PrevNextInverse | Exam/2025/sample1/frontend/app.js:435-440 | previous undoes next, and next undoes previous, when the first click acts |
| DashboardPaging.PageStaysPositive | Exam/2025/sample1/frontend/app.js:415-440 | the page never drops below 1 |
| DashboardPaging.UserEventsStayInRange | Exam/2025/sample1/frontend/app.js:415-440 | user events keep the page within 1..totalPages and do not change the page count or rows |
| DashboardPaging.LoadedPagesPositive | Exam/2025/sample1/frontend/app.js:398 | a loaded page count is at least 1, and the server's count when positive |
| DashboardPaging.FindById | Exam/2025/sample1/frontend/app.js:326-327 | `find` gives undefined if and only if no row has that id, and otherwise the first such row |
| IncidentsApi.DateRangeUtc | Exam/2025/sample1/rest/main.py:40-46 | fails with 422 if and only if both dates are given and out of order; each bound is present if and only if its date is |
| IncidentsApi.DateRangeSelectsDays | Exam/2025/sample1/rest/main.py:44-65 | an instant is in the range if and only if its UTC day lies between date_from and date_to, both inclusive |
| IncidentsApi.SortedDirections | Exam/2025/sample1/rest/main.py:73 | `sorted(ALLOWED_DIR)` is E, N, NE, NW, S, SE, SW, W (the set is declared at line 37) |
| IncidentsApi.SortedSources | Exam/2025/sample1/rest/main.py:79 | `sorted(ALLOWED_SRC)` is ARTILLERY, MLRS, MORTAR, OTHER, UAV_DROP (the set is declared at line 38) |
| IncidentsApi.DirectionDetail | Exam/2025/sample1/rest/main.py:73 | the direction error lists the eight codes in sorted order |
| IncidentsApi.SourceDetail | Exam/2025/sample1/rest/main.py:79 | the source error lists the five codes in sorted order |
| IncidentsApi.Step | Exam/2025/sample1/rest/main.py:60-87 | a filter adds one clause with its own parameter if and only if it is active |
| IncidentsApi.Collect | Exam/2025/sample1/rest/main.py:57-87 | every collected clause is for one of the given columns and carries that column's parameter |
| IncidentsApi.BuildWhere | Exam/2025/sample1/rest/main.py:48-90 | fails if and only if a check fails, with the first failing check's error; otherwise the fragment joins the active clauses and the parameters are theirs, in order |
| IncidentsApi.AppendIf | Exam/2025/sample1/rest/main.py:60-87 | appends the clause text and the parameter exactly when the filter is active |
| IncidentsApi.ActiveListsAgree | Exam/2025/sample1/rest/main.py:57-87 | the two lists built by the appends are the texts and the parameters of the same clauses |
| IncidentsApi.BuildWherePlaceholders | Exam/2025/sample1/rest/main.py:89-90 | the fragment has exactly one `%s` per returned parameter |
| IncidentsApi.WherePlaceholders | Exam/2025/sample1/rest/main.py:89 | any joined fragment has one `%s` per clause |
| IncidentsApi.BuildWhereClauses | Exam/2025/sample1/rest/main.py:60-87 | clauses come in the fixed column order, one per active filter and no other, each with its own parameter |
| IncidentsApi.EmptyWhere | Exam/2025/sample1/rest/main.py:89 | the fragment is empty if and only if no filter is active, and otherwise starts with " WHERE " |
| IncidentsApi.ZeroIntensityRejected | Exam/2025/sample1/rest/main.py:83-85 | an intensity of 0 is rejected, not ignored; 1..5 are accepted |
| IncidentsApi.EmptyCodesIgnored | Exam/2025/sample1/rest/main.py:71-77 | an empty direction or source type acts as no filter |
| IncidentsApi.TotalPages | Exam/2025/sample1/rest/main.py:119 | the page count is at least 1, and exactly 1 when there are no rows |
| IncidentsApi.TotalPagesCeiling | Exam/2025/sample1/rest/main.py:119 | the page count is the ceiling of total / page_size |
| IncidentsApi.OffsetWithinTotal | Exam/2025/sample1/rest/main.py:119-120 | a page is at most the page count if and only if its offset points at an existing row |
| IncidentsApi.ValidateBucket | Exam/2025/sample1/rest/main.py:206-207 | only "day" and "week" pass (the heatmap repeats the check at lines 274-275) |
| IncidentsApi.BucketCheckedFirst | Exam/2025/sample1/rest/main.py:206-210 | a bad bucket is reported before any filter is checked (likewise for the heatmap at lines 274-278) |
| IncidentsApi.BySourceIgnoresSource | Exam/2025/sample1/rest/main.py:222-231 | by_source never filters on source type |
| IncidentsApi.ByDirectionIgnoresDirection | Exam/2025/sample1/rest/main.py:243-252 | by_direction never filters on direction |
| IncidentsApi.HeatmapIgnoresSector | Exam/2025/sample1/rest/main.py:264-278 | the heatmap never filters on sector |
| IncidentsApi.AllowOrigins | Exam/2025/sample1/rest/main.py:16-17 | every origin is non-empty, already stripped of Python white space and comma-free |
| IncidentsApi.AllowOriginsMember | Exam/2025/sample1/rest/main.py:17 | when the stripped setting is not "*", a string is an allowed origin if and only if it is non-empty and is the stripped form of one of the comma-separated pieces |
| IncidentsApi.AllowOriginsRoundTrip | Exam/2025/sample1/rest/main.py:17 | a comma-joined list of trimmed, non-empty origins reads back as that list |
| LearnerProgress.PercentRange | Theme5/aLection56/2025-learn/script.js:107-110 | with only module ids completed, the percentage lies in 0..100 and is 100 if and only if all eight modules are completed |
| LearnerProgress.OpenerScore | Theme5/aLection56/2025-learn/script.js:162-169 | the opening-quiz score never exceeds the number of questions counted |
| LearnerProgress.FinalScore | Theme5/aLection56/2025-learn/script.js:403-409 | the final-quiz score never exceeds the number of questions counted |
| LearnerProgress.FindOption | Theme5/aLection56/2025-learn/script.js:227 | `find` gives an option with that id from the list, and nothing if and only if no option has that id |
| LearnerProgress.DragScore | Theme5/aLection56/2025-learn/script.js:305-309 | the number of matching scenarios never exceeds the number counted |
| LearnerProgress.Remaining | Theme5/aLection56/2025-learn/script.js:344-345 | the counter lies in 0..3 and is 0 if and only if at least three hotspots are found |
| LearnerProgress.Learner.LoadState | Theme5/aLection56/2025-learn/script.js:80-87 | the state becomes the shallow merge of the stored record over the current state |
| LearnerProgress.Learner.MarkCompleted | Theme5/aLection56/2025-learn/script.js:126-130 | sets the module's completed flag |
| LearnerProgress.Learner.CheckOpenerQuiz | Theme5/aLection56/2025-learn/script.js:162-173 | records each slot's answer and returns the number of answers equal to the key; module1 is completed on a full score |
| LearnerProgress.Learner.CheckFinalQuiz | Theme5/aLection56/2025-learn/script.js:403-413 | records each answer and returns the number of answers whose `Number` equals the correct index; module7 is completed on a full score |
| LearnerProgress.Learner.ChooseContrast | Theme5/aLection56/2025-learn/script.js:216 | records the chosen option |
| LearnerProgress.Learner.CheckContrast | Theme5/aLection56/2025-learn/script.js:224-231 | gives no verdict if and only if nothing (or "") is chosen; otherwise the verdict is true exactly for "opt2", the correct option, and the new state is `Contrast` of the old one, which completes module2 for it |
| LearnerProgress.Learner.CheckDragDrop | Theme5/aLection56/2025-learn/script.js:305-312 | returns the number of scenarios holding their answer; module4 is completed when all three do |
| LearnerProgress.Learner.HandleDrop | Theme5/aLection56/2025-learn/script.js:294-303 | records the dropped visual for the scenario, then checks as above |
| LearnerProgress.Learner.AddFix | Theme5/aLection56/2025-learn/script.js:351-357 | lists an issue only when it is not listed yet, so no issue appears twice |
| LearnerProgress.Learner.ClickHotspot | Theme5/aLection56/2025-learn/script.js:330-341 | marks the hotspot found, appends its fix to the list unless it is already listed (the list is otherwise unchanged), completes module5 at three, and returns the remaining count |
| LearnerProgress.MarkEffect | Theme5/aLection56/2025-learn/script.js:126-127 | marking adds exactly that module, keeps every other flag and field, and is idempotent |
| LearnerProgress.OpenerScoreFull | Theme5/aLection56/2025-learn/script.js:162-172 | a full opening-quiz score if and only if every answer equals the key |
| LearnerProgress.OpenerQuizEffect | Theme5/aLection56/2025-learn/script.js:162-173 | all three slots are overwritten (even with an unchecked answer), other slots and fields are untouched, and module1 is completed exactly for false, true, true |
| LearnerProgress.FinalScoreFull | Theme5/aLection56/2025-learn/script.js:403-412 | a full final-quiz score if and only if every answer reads as its correct index |
| LearnerProgress.FinalScoreCounts | Theme5/aLection56/2025-learn/script.js:403-409 | the final score is the number of answers that read as their correct index |
| LearnerProgress.FinalQuizEffect | Theme5/aLection56/2025-learn/script.js:403-413 | all six answers are recorded; module7 is completed exactly when all are right, never with an unanswered question |
| LearnerProgress.FinalQuizAllRight | Theme5/aLection56/2025-learn/script.js:403-413 | the answers 1, 1, 0, 1, 0, 1 complete the final quiz (the key is declared at lines 59-64) |
| LearnerProgress.ContrastEffect | Theme5/aLection56/2025-learn/script.js:224-231 | without a choice nothing changes; otherwise module2 is completed exactly for opt2 |
| LearnerProgress.DragScoreFull | Theme5/aLection56/2025-learn/script.js:305-311 | a full drag score if and only if every scenario holds its answer |
| LearnerProgress.DropEffect | Theme5/aLection56/2025-learn/script.js:294-312 | a drop overwrites only its scenario's match; module4 is completed exactly when all three then match |
| LearnerProgress.HotspotRepeat | Theme5/aLection56/2025-learn/script.js:330-345 | clicking the same hotspot twice finds nothing new, and the counter never goes up |
| LearnerProgress.HotspotCompletes | Theme5/aLection56/2025-learn/script.js:332-337 | module5 is completed if and only if three distinct hotspots are found |
| LearnerProgress.LoadEffect | Theme5/aLection56/2025-learn/script.js:80-87 | no record changes nothing; each stored key replaces its whole field and each absent key keeps it; loading twice equals loading once |
| LectureStep.FindIndex | Theme5/aLection56/2025-step/script.js:251 | `findIndex` gives the first position with that id, or -1 when there is none |
| LectureStep.FindBlock | Theme5/aLection56/2025-step/script.js:213 | `find` gives a block with that id, and nothing if and only if no block has it (the same look-up recurs at lines 234 and 298) |
| LectureStep.ClockFace | Theme5/aLection56/2025-step/script.js:210-211 | the minutes are `Math.floor(r / 60)` (mins·60 ≤ r < mins·60 + 60) and the seconds are r's truncating remainder, congruent to r modulo 60, in 0..59 for r ≥ 0 and in -59..0 for r < 0; for r ≥ 0 they recompose r (the break face repeats the formatting at lines 262-263) |
| LectureStep.Total | Theme5/aLection56/2025-step/script.js:213-214 | a block's total is at least 60 seconds |
| LectureStep.ProgressBounds | Theme5/aLection56/2025-step/script.js:214-215 | the bar is at most 100, exactly 100 if and only if the countdown has reached zero, not negative within the block's time, and 0 at the start |
| LectureStep.Gallery | Theme5/aLection56/2025-step/script.js:73-77 | an item is shown if and only if there is no filter or its tag is a filter |
| LectureStep.Distinct | Theme5/aLection56/2025-step/script.js:92 | `[...new Set(xs)]` has no repeats and the same members as xs |
| LectureStep.Selected | Theme5/aLection56/2025-step/script.js:100 | a tag is selected if and only if some active chip carries it |
| LectureStep.Toggle | Theme5/aLection56/2025-step/script.js:99 | toggling flips chip k and no other |
| LectureStep.Highlight | Theme5/aLection56/2025-step/script.js:175-179 | a pill is active if and only if its target is the id |
| LectureStep.Lecture.constructor | Theme5/aLection56/2025-step/script.js:306-319 | the first block is selected and highlighted, no chip is active, and the break face shows the minutes input (the state it sets up is declared at lines 220-228, 256-265 and 292) |
| LectureStep.Lecture.Tick | Theme5/aLection56/2025-step/script.js:205-218 | below zero only stops the interval; otherwise shows the face and the bar for the current second and counts down one |
| LectureStep.Lecture.StopTimer | Theme5/aLection56/2025-step/script.js:200-203 | the interval is cleared |
| LectureStep.Lecture.StartTimer | Theme5/aLection56/2025-step/script.js:193-198 | the countdown restarts at the full duration, ticks once and runs |
| LectureStep.Lecture.ClickStart | Theme5/aLection56/2025-step/script.js:233-241 | for a known block: timer started with its duration and its name, duration and preview shown; for an unknown one nothing changes |
| LectureStep.Lecture.GotoSection | Theme5/aLection56/2025-step/script.js:166-173 | with a matching element: the current block, the pills and the panel follow the id; without one nothing changes (called from the pills at lines 295-304) |
| LectureStep.Lecture.BreakChange | Theme5/aLection56/2025-step/script.js:267-270 | new seconds from the input and a new face; the interval is untouched |
| LectureStep.Lecture.BreakStart | Theme5/aLection56/2025-step/script.js:272-285 | new seconds from the input, a new face and a running interval |
| LectureStep.Lecture.BreakTick | Theme5/aLection56/2025-step/script.js:276-284 | counts down one second; below zero stops without redrawing |
| LectureStep.Lecture.BreakStop | Theme5/aLection56/2025-step/script.js:287-290 | the interval is cleared, nothing else changes |
| LectureStep.Lecture.ClickChip | Theme5/aLection56/2025-step/script.js:98-102 | toggles chip k and returns the gallery for the active chips |
| LectureStep.LectureIdsDistinct | Theme5/aLection56/2025-step/script.js:1-10 | no two blocks share an id |
| LectureStep.NextPreviewFollows | Theme5/aLection56/2025-step/script.js:250-254 | a block's preview is the next block's name, or "Фініш" after the last |
| LectureStep.NextPreviewUnknown | Theme5/aLection56/2025-step/script.js:251-253 | an id of no block (index -1) previews the first block |
| LectureStep.LecturePreviews | Theme5/aLection56/2025-step/script.js:250-254 | after the break comes "Дизайн для даних", after the summary "Фініш" (for the blocks declared at lines 1-10) |
| LectureStep.ClockRoundTrip | Theme5/aLection56/2025-step/script.js:210-212 | the face of r ≥ 0 reads back as r, with two-digit seconds below 60 |
| LectureStep.ZeroClock | Theme5/aLection56/2025-step/script.js:212 | zero seconds show "00:00" |
| LectureStep.Countdown | Theme5/aLection56/2025-step/script.js:205-218 | while at or above zero each tick shows the current second and counts down by one, and the interval keeps running |
| LectureStep.BlockRunsOut | Theme5/aLection56/2025-step/script.js:193-218 | a block of d minutes ends on "00:00" with a full bar after d·60 + 1 faces; the next tick only stops the interval |
| LectureStep.ProgressAtZero | Theme5/aLection56/2025-step/script.js:215 | the bar is full when the countdown reaches zero |
| LectureStep.StoppedIsIdle | Theme5/aLection56/2025-step/script.js:206-209 | once stopped below zero, a tick changes nothing |
| LectureStep.ProgressMonotone | Theme5/aLection56/2025-step/script.js:215 | the bar grows as the countdown falls |
| LectureStep.BreakCountdown | Theme5/aLection56/2025-step/script.js:276-284 | each beat takes one second off and shows the new value, and the interval keeps running |
| LectureStep.BreakRunsOut | Theme5/aLection56/2025-step/script.js:272-285 | a break of m minutes ends on "00:00"; the next beat stops it at -1 without redrawing |
| LectureStep.BreakRunsOutFrom | Theme5/aLection56/2025-step/script.js:276-284 | from s seconds shown and running, s beats reach "00:00" and the next stops it |
| LectureStep.NegativeBreakStopsAtOnce | Theme5/aLection56/2025-step/script.js:274-282 | a negative number of minutes is shown once and stopped at the first beat |
| LectureStep.NegativeFace | Theme5/aLection56/2025-step/script.js:262-264 | minus one minute shows "-1:00" |
| LectureStep.NaNBreakNeverStops | Theme5/aLection56/2025-step/script.js:274-284 | a non-numeric input shows "NaN:NaN" and the interval never stops or changes anything |
| LectureStep.GalleryUnfiltered | Theme5/aLection56/2025-step/script.js:77 | with no filter the whole gallery is shown, in order |
| LectureStep.GalleryOrder | Theme5/aLection56/2025-step/script.js:76-77 | filtering keeps the gallery's order |
| LectureStep.DistinctFirstAppearance | Theme5/aLection56/2025-step/script.js:92 | the distinct tags come in order of first appearance |
| LectureStep.GalleryChips | Theme5/aLection56/2025-step/script.js:92 | the five chips are the five tags in item order (for the items declared at lines 12-18) |
| LectureStep.ToggleTwice | Theme5/aLection56/2025-step/script.js:99 | a chip clicked twice is back where it was |
| LectureStep.NoChipShowsAll | Theme5/aLection56/2025-step/script.js:100-101 | with no active chip the whole gallery is shown |
| LectureStep.HighlightSingle | Theme5/aLection56/2025-step/script.js:175-179 | with distinct targets at most one pill is active, and one is when the id has a pill |
| WeeklyMetrics.MetricMap | Theme5/aLection56/2025/LiamInspired/sample1/script.js:33 | every metric is stored under its own id |
| WeeklyMetrics.MetricMapLastWins | Theme5/aLection56/2025/LiamInspired/sample1/script.js:33 | a metric with no later namesake is the one stored under its id |
| WeeklyMetrics.MetricMapMissing | Theme5/aLection56/2025/LiamInspired/sample1/script.js:33 | an id no metric has is absent from the map |
| WeeklyMetrics.FindValue | Theme5/aLection56/2025/LiamInspired/sample1/script.js:266-271 | fails (TypeError) if and only if the metric exists without a values list; a missing metric gives 0 |
| WeeklyMetrics.FindValueFirst | Theme5/aLection56/2025/LiamInspired/sample1/script.js:269-270 | the value is the field of the first entry with that id, 0 when the field is falsy |
| WeeklyMetrics.FindValueNoMatch | Theme5/aLection56/2025/LiamInspired/sample1/script.js:270 | with no matching entry the value is 0 |
| WeeklyMetrics.AggregateMetric | Theme5/aLection56/2025/LiamInspired/sample1/script.js:138-140 | a missing metric aggregates to 0 and 0 |
| WeeklyMetrics.SumBounds | Theme5/aLection56/2025/LiamInspired/sample1/script.js:142-143 | a sum of n terms within [lo, hi] lies within [n·lo, n·hi] |
| WeeklyMetrics.AggregateSum | Theme5/aLection56/2025/LiamInspired/sample1/script.js:141-148 | the 'sum' mode gives the two raw weekly totals |
| WeeklyMetrics.AverageBounded | Theme5/aLection56/2025/LiamInspired/sample1/script.js:142-147 | an average over at least one entry lies between the smallest and the largest term |
| WeeklyMetrics.AggregateEmpty | Theme5/aLection56/2025/LiamInspired/sample1/script.js:141-147 | a metric without entries aggregates to 0 and 0 in either mode (the divisor is at least 1) |
| WeeklyMetrics.DeltaBadge | Theme5/aLection56/2025/LiamInspired/sample1/script.js:273-274 | a previous value of 0 gives the "нова" badge |
| WeeklyMetrics.DeltaBadgeMeaning | Theme5/aLection56/2025/LiamInspired/sample1/script.js:275-281 | ▲ exactly on a rise, ▼ exactly on a fall, • exactly when unchanged; 'good' exactly when the change goes the wanted way (a non-rise, when inverted); the text is the absolute rounded percentage followed by % |
| WeeklyMetrics.InvertSwapsClass | Theme5/aLection56/2025/LiamInspired/sample1/script.js:278-281 | inverting swaps good and bad and keeps the icon and the text |
| WeeklyMetrics.DeltaScaleInvariant | Theme5/aLection56/2025/LiamInspired/sample1/script.js:275-281 | scaling both values by the same positive factor leaves the badge unchanged |
| WeeklyMetrics.SameRatioSameBadge | Theme5/aLection56/2025/LiamInspired/sample1/script.js:275-281 | two changes of the same relative size and direction get the same badge |
| WeeklyMetrics.TrendText | Theme5/aLection56/2025/LiamInspired/sample1/script.js:196-198 | "немає даних" if and only if the previous value is 0 |
| WeeklyMetrics.TrendMeaning | Theme5/aLection56/2025/LiamInspired/sample1/script.js:196-202 | the direction follows the sign of the change, the size is its absolute value, and 'краще' exactly when it goes the wanted way |
| WeeklyMetrics.TrendAgreesWithBadge | Theme5/aLection56/2025/LiamInspired/sample1/script.js:196-202 | when the value moved, the trend's 'краще' and the badge's 'good' agree (the badge class is chosen at line 278) |
| WeeklyMetrics.UnchangedInvertedDisagree | Theme5/aLection56/2025/LiamInspired/sample1/script.js:196-202 | for an unchanged inverted metric the badge says 'good' while the trend says 'гірше' (the badge class is chosen at line 278) |
| WeeklyMetrics.RiskBandMonotone | Theme5/aLection56/2025/LiamInspired/sample1/script.js:166 | a higher risk never gets a milder band |
| WeeklyMetrics.RiskBandEdges | Theme5/aLection56/2025/LiamInspired/sample1/script.js:166 | 0.65 is 'warn', 0.5 is 'good', anything above 0.65 is 'bad' |
| WeeklyMetrics.ToAlerts | Theme5/aLection56/2025/LiamInspired/sample1/script.js:209-214 | one alert per risk entry, in order |
| WeeklyMetrics.Alerts | Theme5/aLection56/2025/LiamInspired/sample1/script.js:204-217 | no risk metric gives no alerts; fails (TypeError) if and only if the risk metric has no values list |
| WeeklyMetrics.AlertsAreTopThree | Theme5/aLection56/2025/LiamInspired/sample1/script.js:209-217 | exactly min(3, number of risk entries) alerts, highest first, a sub-multiset of the risk entries' alerts, and every entry left out is no higher than the last shown |
| WeeklyMetrics.AlertBadgeMeaning | Theme5/aLection56/2025/LiamInspired/sample1/script.js:221 | the alert card's badge is "нова" without a previous value or with 0; otherwise an arrow for the direction of the change, "good" exactly for a rise, and the absolute rounded percentage followed by '%' |
| WeeklyMetrics.AlertLabelMeaning | Theme5/aLection56/2025/LiamInspired/sample1/script.js:220 | the alert card's label is the non-empty name of the first sector carrying the alert's id; otherwise the id, or "undefined" when there is none |
| WeeklyMetrics.FirstSector | Theme5/aLection56/2025/LiamInspired/sample1/script.js:220 | `find` gives the first sector with the alert's id |
| WeeklyMetrics.SelectSectors | Theme5/aLection56/2025/LiamInspired/sample1/script.js:159 | a sector is shown if and only if 'all' is chosen or it is the chosen one |
| WeeklyMetrics.SelectAll | Theme5/aLection56/2025/LiamInspired/sample1/script.js:159 | 'all' shows every sector in order |
| WeeklyMetrics.SelectOne | Theme5/aLection56/2025/LiamInspired/sample1/script.js:159 | with distinct ids, choosing a sector's id shows that sector alone |
| NoiseDemo.NoiseFactor | Theme5/aLection56/2025/script.js:39 | the factor lies in [0, 1]: 0 at or below no noise, 1 at or above full noise, noise/100 in between |
| NoiseDemo.RenderBars | Theme5/aLection56/2025/script.js:35-52 | a missing container is left alone; otherwise it ends with exactly one bar per value, in order, each with its noise class, height and opacity |
| NoiseDemo.OpacityRange | Theme5/aLection56/2025/script.js:39-49 | the opacity lies in [0.4, 1]; it is 1 exactly without noise and 0.4 exactly at full noise |
| NoiseDemo.HeightBounds | Theme5/aLection56/2025/script.js:47 | a bar is at least 24 and at most max(24, value) high, and exactly that without noise |
| NoiseDemo.MoreNoiseNoTaller | Theme5/aLection56/2025/script.js:39-47 | raising the noise never makes a bar taller |
| NoiseDemo.NoisyBars | Theme5/aLection56/2025/script.js:39-46 | a bar is marked noisy if and only if it sits at an even position and the noise is above 45 |
| NoiseDemo.SignalIsRemainder | Theme5/aLection56/2025/script.js:92-93 | on the slider's range the signal lies in 0..100 and the noise factor plus signal/100 is 1 (with the noise factor of line 39) |
| NoiseDemo.NoiseControl.Update | Theme5/aLection56/2025/script.js:91-98 | the read-outs show the noise and 100 − noise as percentages, and the demo chart is redrawn from the six demo values |
| NoiseDemo.ChartButtons.constructor | Theme5/aLection56/2025/script.js:54-84 | one button per category, the first active and its charts listed |
| NoiseDemo.ChartButtons.Click | Theme5/aLection56/2025/script.js:74-79 | after a click exactly the clicked button is active and its category's charts are listed |
| NoiseDemo.OneActive | Theme5/aLection56/2025/script.js:76-77 | when only one position is marked active, exactly one button carries `active` |
| NoiseDemo.CatalogueShape | Theme5/aLection56/2025/script.js:1-27 | five categories with distinct names, three chart types each |
| NoiseDemo.CheckQuiz | Theme5/aLection56/2025/script.js:104-123 | the score is the number of questions whose checked option is the key's, at most 3, and the verdict is the one for that score |
| NoiseDemo.SuccessIffAllCorrect | Theme5/aLection56/2025/script.js:116-122 | the success verdict appears if and only if every question is answered correctly (against the answers declared at lines 29-33) |
| JsValues.ToNumberNumerals | Exam/2025/sample1/frontend/app.js:430 | `Number` of blanks is 0 and of a decimal numeral is its value (also used for `min_intensity` at line 78) |
| JsValues.SingleDigitNumber | Theme5/aLection56/2025-learn/script.js:408 | `Number` of a one-digit string such as a quiz answer's value is that digit |
| JsValues.Round | Theme5/aLection56/2025/LiamInspired/sample1/script.js:276 | `Math.round(x)` lies within half a unit of x |
| JsValues.JsRemValue | Theme5/aLection56/2025-step/script.js:211 | JavaScript's `%` takes the sign of the dividend: the result differs from the dividend by a multiple of the divisor, lies in 0..b-1 for a non-negative dividend (where it equals the Euclidean remainder) and in -(b-1)..0 for a negative one, so it is determined (the break face uses it again at line 263) |
| JsValues.ToString | Exam/2025/sample1/frontend/app.js:72 | `String(v)`: a string is itself, a non-negative number its decimal digits, a negative number '-' followed by the digits of its magnitude, a boolean "true" or "false" |
| Sequences.SortDescStable | Exam/2025/sample1/frontend/app.js:343 | the descending sort by count is stable: the entries of any one count come out in the order they went in, which decides the ties at the top-five cut (the weekly alerts sort the same way at Theme5/aLection56/2025/LiamInspired/sample1/script.js:216) |
| Text.Trim | Exam/2025/sample1/frontend/app.js:82 | JavaScript's `trim()` over its full white-space set: the result is a contiguous slice of the input with only white space before and after it, neither starts nor ends with white space, and is empty exactly when the input is all white space |
| Text.Strip | Exam/2025/sample1/rest/main.py:17 | Python's `str.strip()` over its own white-space set: the result is a contiguous slice of the input with only white space before and after it, neither starts nor ends with white space, and is empty exactly when the input is all white space |

## Left out

- The detector's behaviour on `[10, 10, 10, 10, 100]`: an example sometimes quoted for it expects the 100 to be flagged, but with the sample standard deviation the code computes (divisor n - 1) the threshold is 28 + 2·√1620 ≈ 108.5, so nothing is flagged. The model follows the code (`DashboardCharts.FivePointOutlierNotFlagged`); `DashboardCharts.EightPointOutlierFlagged` shows an outlier that is flagged.

- Network I/O: `fetch`, response status and body text are parameters of `DashboardQuery.ApiGet`, and the weekly and demo pages' data loading is not modelled. The dashboard's health check, and the ordering of overlapping `loadAll` cycles (two fetch cycles racing), are not modelled either.
- Sequences.StrLess: characters compare as Unicode scalar values, while JavaScript's default `sort()` compares UTF-16 code units; the two orders differ only between a character above U+FFFF and one in U+E000..U+FFFF.
- `URLSearchParams` percent-encoding: the query string is modelled as the plain `name=value` pairs joined by `&`.
- JsValues.ToNumber: only integer numerals are modelled (the white space it skips is JavaScript's full set, `Text.IsSpace`). A fractional, exponent, hexadecimal or `Infinity` numeral reads as NaN here, while JavaScript reads it as a number. This also affects the `min_intensity` filter: an entry such as "1.5" is sent by app.js:78-86 as the number 1.5, while `DashboardQuery.GetFilters` gives None for it and the parameter is left out. It affects the page-size select and the break minutes too.
- IEEE floating point: reals are exact. `toFixed`, `toLocaleString` and `toLocaleDateString` renderings are not modelled.
- `Math.sqrt`: the anomaly test is stated without the square root, as `count > mean` and `(count - mean)^2 > 4 * variance`. `DashboardCharts.AboveThresholdIsMeanPlusTwoSd` proves this equivalent to the threshold comparison.
- Dates: `Date` parsing and ISO formatting are not modelled. API dates are day numbers and instants are seconds. Heatmap periods are opaque strings.
- The SQL queries themselves, the database connection and `rows_to_dicts` are not modelled, nor is the FastAPI parameter validation. IncidentsApi.TotalPages: its requires (`page_size` in 1..200) stands in for the framework's bound.
- The CORS middleware's behaviour is not modelled; only the origin list it is given is.
- IncidentsApi.Offset: it has no contract of its own. Its relation to the page count is `IncidentsApi.OffsetWithinTotal`.
- DOM, SVG and canvas construction are not modelled: element markup, SVG attributes other than the bar widths and cell opacities, and the trend line's coordinate scaling. The table rows, the detail modal, the status/error banner, `scrollIntoView` and `IntersectionObserver` scroll tracking are also left out.
- Chart.js configurations on the weekly dashboard are not modelled, and neither are `renderSectors` bar widths, `paintMeta`, `renderBrigades` and the key-metric cards' text.
- WeeklyMetrics.Alerts: it requires every risk entry to carry a current value. Without one, the sort comparator returns NaN and the order JavaScript then produces is unspecified.
- Timers: `setInterval` and `clearInterval` are modelled as a running flag. Each tick is one method call, with no notion of elapsed time.
- `localStorage`, `saveState` and JSON serialisation: the stored progress record is a datatype given to `LearnerProgress.Learner.LoadState`.
- Learner page triggers without logic of their own are not modelled: the start button (module0), the mind-map hover (module3) and the mock-up builder (module6). Each only calls `markCompleted`, which `LearnerProgress.Learner.MarkCompleted` models. The builder's recommendation text is not modelled either.
- Hotspot issue names are read from the page markup (`data-issue`), so they are parameters here.
- Result messages and verdict texts of the learner quizzes, the contrast task and the drag-and-drop are not modelled. Only the scores and completion flags they depend on are.
- The lecture panel's initial markup texts, the per-case notes saved in `localStorage`, the before/after comparison slider and the hint toggles are not modelled.
- NoiseDemo.NoiseControl.Update: it takes the slider's value as an integer, since a range input never yields NaN. The signal note's `toFixed(2)` text is not modelled.
- Card markup of the chart catalogue and the gallery is not modelled; only which entries are shown is.


/**
 * The pagination controller of the incident dashboard: the page state that
 * one fetch cycle reads and writes, the button handlers that change it, and
 * the look-up behind a row's detail button.
 */
module DashboardPaging {
  import opened Wrappers
  import opened Text
  import opened JsValues
  import opened DashboardQuery

  /** One row of `/api/incidents`. */
  datatype Incident = Incident(
    id: int, eventTime: string, sectorCode: string, direction: string,
    sourceType: string, intensity: int, roundsEst: int)

  /** A snapshot of the dashboard's `state` object. */
  datatype Pager = Pager(page: int, pageSize: Option<int>, totalPages: int, lastItems: seq<Incident>)

  /** `state` as the page loads it. */
  const Initial: Pager := Pager(1, Some(25), 1, [])

  /** What changes `state`: the four controls and the arrival of an incidents page. */
  datatype Event =
    | ApplyClick
    | ResetClick
    | PageSizeChange(value: string)
    | PrevClick
    | NextClick
    | PageLoaded(totalPagesField: Option<int>, items: Option<seq<Incident>>)

  /** `total_pages || 1`: a missing, null or zero count reads as one page. */
  function OrOne(n: Option<int>): int {
    if n.Some? && n.value != 0 then n.value else 1
  }

  /** The state after one event. */
  function Transition(s: Pager, e: Event): Pager {
    match e
    case ApplyClick => s.(page := 1)
    case ResetClick => s.(page := 1)
    case PageSizeChange(v) => s.(pageSize := ToNumber(v), page := 1)
    case PrevClick => if s.page > 1 then s.(page := s.page - 1) else s
    case NextClick => if s.page < s.totalPages then s.(page := s.page + 1) else s
    case PageLoaded(tp, items) => s.(totalPages := OrOne(tp), lastItems := items.GetOr([]))
  }

  /** Whether the event starts a new fetch cycle (`loadAll()`). */
  predicate Reloads(s: Pager, e: Event) {
    match e
    case ApplyClick => true
    case ResetClick => true
    case PageSizeChange(_) => true
    case PrevClick => s.page > 1
    case NextClick => s.page < s.totalPages
    case PageLoaded(_, _) => false
  }

  /** `prevPage.disabled`. */
  predicate PrevDisabled(s: Pager) {
    s.page <= 1
  }

  /** `nextPage.disabled`. */
  predicate NextDisabled(s: Pager) {
    s.page >= s.totalPages
  }

  /** The state after a sequence of events, in order. */
  function Run(s: Pager, es: seq<Event>): Pager
    decreases |es|
  {
    if es == [] then s else Run(Transition(s, es[0]), es[1..])
  }

  /** The events that do not come from the server. */
  predicate UserEvent(e: Event) {
    !e.PageLoaded?
  }

  // ---------------------------------------------------------------------------
  // The controller as the page runs it

  /** The dashboard's `state`, updated in place by the handlers. */
  class Dashboard {
    var page: int
    var pageSize: Option<int>
    var totalPages: int
    var lastItems: seq<Incident>

    function State(): Pager
      reads this
    {
      Pager(page, pageSize, totalPages, lastItems)
    }

    constructor ()
      ensures State() == Initial
    {
      page, pageSize, totalPages, lastItems := 1, Some(25), 1, [];
    }

    /** The apply button: back to the first page and reload. */
    method OnApply() returns (reload: bool)
      modifies this
      ensures State() == Transition(old(State()), ApplyClick)
      ensures reload
    {
      page := 1;
      reload := true;
    }

    /** The reset button: the form is cleared (see `ClearedForm`), back to the first page and reload. */
    method OnReset() returns (form: FormInputs, bucket: string, reload: bool)
      modifies this
      ensures State() == Transition(old(State()), ResetClick)
      ensures form == ClearedForm() && bucket == "week" && reload
    {
      form := FormInputs("", "", "", "", "", "");
      bucket := "week";
      page := 1;
      reload := true;
    }

    /** The page-size select: `Number(value)`, back to the first page and reload. */
    method OnPageSize(value: string) returns (reload: bool)
      modifies this
      ensures State() == Transition(old(State()), PageSizeChange(value))
      ensures reload
    {
      pageSize := ToNumber(value);
      page := 1;
      reload := true;
    }

    /** The previous-page button: only acts above the first page. */
    method OnPrev() returns (reload: bool)
      modifies this
      ensures State() == Transition(old(State()), PrevClick)
      ensures reload == Reloads(old(State()), PrevClick)
    {
      reload := false;
      if page > 1 {
        page := page - 1;
        reload := true;
      }
    }

    /** The next-page button: only acts below the last page. */
    method OnNext() returns (reload: bool)
      modifies this
      ensures State() == Transition(old(State()), NextClick)
      ensures reload == Reloads(old(State()), NextClick)
    {
      reload := false;
      if page < totalPages {
        page := page + 1;
        reload := true;
      }
    }

    /** The end of a fetch cycle: store the page count and rows, then set both buttons' disabled flags. */
    method OnPageLoaded(totalPagesField: Option<int>, items: Option<seq<Incident>>)
      returns (prevDisabled: bool, nextDisabled: bool)
      modifies this
      ensures State() == Transition(old(State()), PageLoaded(totalPagesField, items))
      ensures prevDisabled == PrevDisabled(State()) && nextDisabled == NextDisabled(State())
    {
      totalPages := if totalPagesField.Some? && totalPagesField.value != 0 then totalPagesField.value else 1;
      lastItems := if items.Some? then items.value else [];
      prevDisabled := page <= 1;
      nextDisabled := page >= totalPages;
    }
  }

  // ---------------------------------------------------------------------------
  // Properties

  /** The filter inputs after a reset. */
  function ClearedForm(): FormInputs {
    FormInputs("", "", "", "", "", "")
  }

  /** After a reset no filter is sent. */
  lemma ResetClearsFilters()
    ensures GetFilters(ClearedForm()) == FilterSet(None, None, None, None, None, None)
  {
    assert AllSpace("");
  }

  /**
   * A disabled button is one whose click does nothing; an enabled one moves
   * exactly one page and reloads.
   */
  lemma DisabledMeansNoOp(s: Pager)
    ensures PrevDisabled(s) <==> !Reloads(s, PrevClick)
    ensures NextDisabled(s) <==> !Reloads(s, NextClick)
    ensures PrevDisabled(s) ==> Transition(s, PrevClick) == s
    ensures NextDisabled(s) ==> Transition(s, NextClick) == s
    ensures !PrevDisabled(s) ==> Transition(s, PrevClick) == s.(page := s.page - 1)
    ensures !NextDisabled(s) ==> Transition(s, NextClick) == s.(page := s.page + 1)
  {
  }

  /** Previous undoes next, and next undoes previous, whenever the first click acts. */
  lemma PrevNextInverse(s: Pager)
    requires 1 <= s.page <= s.totalPages
    ensures !NextDisabled(s) ==> Transition(Transition(s, NextClick), PrevClick) == s
    ensures !PrevDisabled(s) ==> Transition(Transition(s, PrevClick), NextClick) == s
  {
  }

  /** The page number never drops below 1, whatever happens. */
  lemma {:induction false} PageStaysPositive(s: Pager, es: seq<Event>)
    requires s.page >= 1
    ensures Run(s, es).page >= 1
    decreases |es|
  {
    if es != [] {
      PageStaysPositive(Transition(s, es[0]), es[1..]);
    }
  }

  /**
   * Between two page loads the user's clicks keep the page inside
   * 1..totalPages, and the page count itself does not change.
   */
  lemma {:induction false} UserEventsStayInRange(s: Pager, es: seq<Event>)
    requires 1 <= s.page <= s.totalPages
    requires forall i :: 0 <= i < |es| ==> UserEvent(es[i])
    ensures 1 <= Run(s, es).page <= Run(s, es).totalPages
    ensures Run(s, es).totalPages == s.totalPages && Run(s, es).lastItems == s.lastItems
    decreases |es|
  {
    if es != [] {
      assert UserEvent(es[0]);
      UserEventsStayInRange(Transition(s, es[0]), es[1..]);
    }
  }

  /** A loaded page count is at least 1 unless the server sends a negative one. */
  lemma LoadedPagesPositive(s: Pager, tp: Option<int>, items: Option<seq<Incident>>)
    requires tp.None? || tp.value >= 0
    ensures Transition(s, PageLoaded(tp, items)).totalPages >= 1
    ensures tp.Some? && tp.value > 0 ==> Transition(s, PageLoaded(tp, items)).totalPages == tp.value
  {
  }

  /** The position of the first row with that id, or the length when there is none. */
  function FirstWithId(items: seq<Incident>, id: int): (k: nat)
    ensures k <= |items|
    ensures k < |items| ==> items[k].id == id
    ensures forall j :: 0 <= j < k ==> items[j].id != id
  {
    if items == [] then 0
    else if items[0].id == id then 0
    else 1 + FirstWithId(items[1..], id)
  }

  /** `state.lastItems.find(x => x.id === id)`: the first row with that id. */
  function FindById(items: seq<Incident>, id: int): (r: Option<Incident>)
    ensures r.None? <==> forall i :: 0 <= i < |items| ==> items[i].id != id
    ensures r.Some? ==> r.value in items && r.value.id == id
    ensures r.Some? ==> forall j :: 0 <= j < |items| && items[j].id == id ==> r.value == items[FirstWithId(items, id)]
  {
    var k := FirstWithId(items, id);
    if k < |items| then Some(items[k]) else None
  }
}

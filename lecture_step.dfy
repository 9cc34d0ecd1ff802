/**
 * The lecture page's teacher panel: the timetable of lecture blocks, the
 * block countdown with its progress bar, the break countdown, navigation
 * between sections, the "next block" preview, and the example gallery with
 * its tag chips.
 */
module LectureStep {
  import opened Wrappers
  import opened Text
  import opened JsValues
  import opened Sequences

  // ---------------------------------------------------------------------------
  // The timetable

  /** One block of the lecture; its duration is in minutes. */
  datatype Block = Block(id: string, name: string, duration: int)

  const Blocks: seq<Block> := [
    Block("structure", "Структура", 3),
    Block("intro", "Вступ", 5),
    Block("basics", "Основи дизайну", 20),
    Block("examples", "Приклади", 15),
    Block("break", "Перерва", 10),
    Block("data", "Дизайн для даних", 20),
    Block("interactive", "Інтерактив", 15),
    Block("summary", "Підсумки", 5)
  ]

  /** The preview text after the last block. */
  const Finish: string := "Фініш"

  /** No two blocks share an id. */
  predicate IdsDistinct(blocks: seq<Block>) {
    forall i, j :: 0 <= i < j < |blocks| ==> blocks[i].id != blocks[j].id
  }

  /** `blocks.findIndex(b => b.id === id)`: the first position with that id, or -1. */
  function FindIndex(blocks: seq<Block>, id: string): (k: int)
    ensures -1 <= k < |blocks|
    ensures k >= 0 ==> blocks[k].id == id
    ensures forall j :: 0 <= j < |blocks| && (k == -1 || j < k) ==> blocks[j].id != id
  {
    if blocks == [] then -1
    else if blocks[0].id == id then 0
    else
      var k := FindIndex(blocks[1..], id);
      if k == -1 then -1 else k + 1
  }

  /** `blocks.find(b => b.id === id)`. */
  function FindBlock(blocks: seq<Block>, id: string): (r: Option<Block>)
    ensures r.None? <==> forall j :: 0 <= j < |blocks| ==> blocks[j].id != id
    ensures r.Some? ==> r.value in blocks && r.value.id == id
  {
    var k := FindIndex(blocks, id);
    if k >= 0 then Some(blocks[k]) else None
  }

  /** `setNextPreview(id)`: the name of `blocks[findIndex + 1]`, or "Фініш" past the end. */
  function NextPreview(blocks: seq<Block>, id: string): string {
    var k := FindIndex(blocks, id);
    if k + 1 < |blocks| then blocks[k + 1].name else Finish
  }

  /** The text of the duration label, `${duration} хв`. */
  function DurationText(minutes: int): string {
    IntToString(minutes) + " хв"
  }

  // ---------------------------------------------------------------------------
  // The clock face

  /**
   * What a countdown shows: minutes and seconds, NaN in both places, or the
   * text the markup carries before the first tick (not part of this model).
   */
  datatype Face = Face(minutes: int, seconds: int) | NaNFace | MarkupFace

  /** `Math.floor(r / 60)` and `r % 60`, with JavaScript's truncating `%`. */
  function Clock(r: int): (f: Face)
    ensures f.Face?
    ensures r >= 0 ==> f.minutes * 60 + f.seconds == r && 0 <= f.seconds < 60
  {
    Face(r / 60, JsRem(r, 60))
  }

  /**
   * Every face, negative ones included: the minutes are `Math.floor(r / 60)`
   * and the seconds are congruent to r modulo 60, with r's sign.
   */
  lemma ClockFace(r: int)
    ensures var f := Clock(r);
      && f.minutes * 60 <= r < f.minutes * 60 + 60
      && (r - f.seconds) % 60 == 0
      && (r >= 0 ==> 0 <= f.seconds < 60 && f.minutes * 60 + f.seconds == r)
      && (r < 0 ==> -60 < f.seconds <= 0)
  {
    JsRemValue(r, 60);
  }

  /**
   * The face's text, `${String(m).padStart(2, '0')}:${String(s).padStart(2, '0')}`;
   * a remainder of -0 reads "0".
   */
  function FaceText(f: Face): string {
    match f
    case Face(m, s) => PadStart2(IntToString(m)) + ":" + PadStart2(IntToString(s))
    case NaNFace => "NaN:NaN"
    case MarkupFace => ""
  }

  /** Reads a clock face back into seconds; None when it is not `digits:digits`. */
  function ReadClock(s: string): Option<int> {
    var parts := Split(s, ':');
    if |parts| == 2 && AllDigits(parts[0]) && AllDigits(parts[1])
    then Some(DigitsValue(parts[0]) * 60 + DigitsValue(parts[1]))
    else None
  }

  // ---------------------------------------------------------------------------
  // The block countdown

  /** The countdown's variables: `remainingSeconds`, whether the interval is set, the face and the bar width. */
  datatype Timer = Timer(remaining: int, running: bool, display: Face, progress: real)

  /** `(block?.duration || 1) * 60` for the block with that id. */
  function Total(id: string): (t: int)
    ensures t >= 60
  {
    var b := FindBlock(Blocks, id);
    BlocksPositive();
    (if b.Some? && b.value.duration != 0 then b.value.duration else 1) * 60
  }

  /** Every block of the lecture lasts at least a minute. */
  lemma BlocksPositive()
    ensures forall b :: b in Blocks ==> b.duration >= 1
  {
  }

  /** `Math.min(100, (total - r) / total * 100)`. */
  function Progress(id: string, r: int): real {
    var total := Total(id) as real;
    Percent(total - r as real, total)
  }

  /** `Math.min(100, a / c * 100)`. */
  function Percent(a: real, c: real): real
    requires c > 0.0
  {
    var x := a / c * 100.0;
    if x < 100.0 then x else 100.0
  }

  /** The bar never passes 100%, is full exactly from zero down, and is empty at the start. */
  lemma ProgressBounds(id: string, r: int)
    ensures Progress(id, r) <= 100.0
    ensures Progress(id, r) == 100.0 <==> r <= 0
    ensures r <= Total(id) ==> 0.0 <= Progress(id, r)
    ensures r == Total(id) ==> Progress(id, r) == 0.0
  {
    var total := Total(id) as real;
    var a := total - r as real;
    PercentBounds(a, total);
    assert Progress(id, r) == Percent(a, total);
  }

  /** Facts about `Math.min(100, a / c * 100)` for a positive c. */
  lemma PercentBounds(a: real, c: real)
    requires c > 0.0
    ensures Percent(a, c) <= 100.0
    ensures Percent(a, c) == 100.0 <==> a >= c
    ensures a >= 0.0 ==> Percent(a, c) >= 0.0
    ensures a == 0.0 ==> Percent(a, c) == 0.0
  {
    var q := a / c;
    assert q * c == a;
    assert a / c * 100.0 == q * 100.0;
    if q >= 1.0 {
      ScaleAtLeast(q - 1.0, c);
    } else {
      ScaleAtLeast(1.0 - q, c);
    }
    if a >= 0.0 {
      assert q >= 0.0 by {
        if q < 0.0 {
          ScaleAtLeast(-q, c);
        }
      }
    }
  }

  /** A non-negative multiple of a positive c is non-negative, and positive when the factor is. */
  lemma ScaleAtLeast(d: real, c: real)
    requires d >= 0.0 && c > 0.0
    ensures d * c >= 0.0
    ensures d > 0.0 ==> d * c > 0.0
  {
  }

  /** `tick()` while `currentBlock` is id: below zero it only stops; otherwise it shows r and counts down. */
  function AfterTick(t: Timer, id: string): Timer {
    if t.remaining < 0 then t.(running := false)
    else Timer(t.remaining - 1, t.running, Clock(t.remaining), Progress(id, t.remaining))
  }

  /** `startTimer(minutes)`: reset to the full duration, tick at once, and set the interval. */
  function AfterStart(t: Timer, id: string, minutes: int): Timer {
    AfterTick(t.(remaining := minutes * 60), id).(running := true)
  }

  /** n ticks of the interval. */
  function Ticks(t: Timer, id: string, n: nat): Timer
    decreases n
  {
    if n == 0 then t else Ticks(AfterTick(t, id), id, n - 1)
  }

  // ---------------------------------------------------------------------------
  // The break countdown

  /** `breakSeconds` (None for NaN), whether its interval is set, and the text of `#breakCountdown`. */
  datatype BreakTimer = BreakTimer(seconds: Option<int>, running: bool, display: Face)

  /** `Number(value) * 60`. */
  function BreakSeconds(value: string): Option<int> {
    var m := ToNumber(value);
    if m.Some? then Some(m.value * 60) else None
  }

  /** `updateDisplay()`: NaN seconds show NaN minutes and NaN seconds. */
  function BreakClock(s: Option<int>): Face {
    if s.Some? then Clock(s.value) else NaNFace
  }

  /** The minutes input changes: new seconds, new face, the interval untouched. */
  function AfterBreakChange(b: BreakTimer, value: string): BreakTimer {
    var s := BreakSeconds(value);
    b.(seconds := s, display := BreakClock(s))
  }

  /** The start button: new seconds and face, and a (fresh) interval. */
  function AfterBreakStart(b: BreakTimer, value: string): BreakTimer {
    AfterBreakChange(b, value).(running := true)
  }

  /** One beat of the break interval: count down; below zero stop without redrawing. */
  function AfterBreakTick(b: BreakTimer): BreakTimer {
    var s := if b.seconds.Some? then Some(b.seconds.value - 1) else None;
    if s.Some? && s.value < 0 then b.(seconds := s, running := false)
    else b.(seconds := s, display := BreakClock(s))
  }

  function BreakTicks(b: BreakTimer, n: nat): BreakTimer
    decreases n
  {
    if n == 0 then b else BreakTicks(AfterBreakTick(b), n - 1)
  }

  // ---------------------------------------------------------------------------
  // The gallery

  datatype GalleryItem = GalleryItem(title: string, tag: string, quality: string)

  const GalleryItems: seq<GalleryItem> := [
    GalleryItem("Дашборд готовності", "контраст", "good"),
    GalleryItem("Перевантажений графік", "ієрархія", "bad"),
    GalleryItem("Сітка карток", "композиція", "good"),
    GalleryItem("Кольоровий шум", "колір", "bad"),
    GalleryItem("Читабельна таблиця", "типографіка", "good")
  ]

  /** `renderGallery(filters)`: every item when there is no filter, else the items whose tag is a filter. */
  function Gallery(items: seq<GalleryItem>, filters: seq<string>): (r: seq<GalleryItem>)
    ensures forall x :: x in r <==> x in items && (filters == [] || x.tag in filters)
  {
    Filter(items, (item: GalleryItem) => |filters| == 0 || item.tag in filters)
  }

  /** `items.map(i => i.tag)`. */
  function TagsOf(items: seq<GalleryItem>): (r: seq<string>)
    ensures |r| == |items| && forall i :: 0 <= i < |items| ==> r[i] == items[i].tag
  {
    if items == [] then [] else TagsOf(items[..|items| - 1]) + [items[|items| - 1].tag]
  }

  predicate NoDuplicates(xs: seq<string>) {
    forall i, j :: 0 <= i < j < |xs| ==> xs[i] != xs[j]
  }

  /** `[...new Set(xs)]`: each value once, at the place it first appears. */
  function Distinct(xs: seq<string>): (r: seq<string>)
    ensures NoDuplicates(r)
    ensures forall x :: x in r <==> x in xs
  {
    if xs == [] then []
    else
      var d := Distinct(xs[..|xs| - 1]);
      var x := xs[|xs| - 1];
      assert xs == xs[..|xs| - 1] + [x];
      if x in d then d else d + [x]
  }

  /** The position where x first appears in xs. */
  function FirstIndex(xs: seq<string>, x: string): (k: nat)
    requires x in xs
    ensures k < |xs| && xs[k] == x
    ensures forall j :: 0 <= j < k ==> xs[j] != x
  {
    var p := xs[..|xs| - 1];
    if x in p then FirstIndex(p, x) else |xs| - 1
  }

  /** The filter chips, one per distinct tag. */
  function Tags(items: seq<GalleryItem>): seq<string> {
    Distinct(TagsOf(items))
  }

  /** `qsa('.chip.active').map(c => c.textContent)`: the active chips' tags in chip order. */
  function Selected(tags: seq<string>, active: seq<bool>): (r: seq<string>)
    requires |active| == |tags|
    ensures |r| <= |tags|
    ensures forall x :: x in r <==> exists i :: 0 <= i < |tags| && active[i] && tags[i] == x
  {
    if tags == [] then []
    else
      var rest := Selected(tags[1..], active[1..]);
      assert forall i :: 1 <= i < |tags| ==> tags[1..][i - 1] == tags[i] && active[1..][i - 1] == active[i];
      if active[0] then [tags[0]] + rest else rest
  }

  /** `chip.classList.toggle('active')` on chip k. */
  function Toggle(active: seq<bool>, k: nat): (r: seq<bool>)
    requires k < |active|
    ensures |r| == |active| && r[k] == !active[k]
    ensures forall i :: 0 <= i < |active| && i != k ==> r[i] == active[i]
  {
    active[k := !active[k]]
  }

  // ---------------------------------------------------------------------------
  // The page

  /** The teacher panel's texts: the select's value, the block name, its duration and the preview. */
  datatype Panel = Panel(select: string, name: string, duration: string, next: string)

  /**
   * `updatePanel()` after `currentBlock` became id. A select given a value that
   * none of its options has shows no option, so its value reads "".
   */
  function UpdatePanel(p: Panel, id: string): Panel {
    var b := FindBlock(Blocks, id);
    if b.Some? then Panel(id, b.value.name, DurationText(b.value.duration), NextPreview(Blocks, id))
    else p.(select := "")
  }

  /** `highlightNav(id)`: a pill is active exactly when its target is id. */
  function Highlight(pills: seq<string>, id: string): (r: seq<bool>)
    ensures |r| == |pills|
    ensures forall i :: 0 <= i < |pills| ==> (r[i] <==> pills[i] == id)
  {
    if pills == [] then [] else Highlight(pills[..|pills| - 1], id) + [pills[|pills| - 1] == id]
  }

  /** The module-level variables of the page and the panel elements the handlers write. */
  class Lecture {
    var remaining: int
    var timerRunning: bool
    /** What `#timerFace` shows. */
    var timerFace: Face
    var progressWidth: real
    var currentBlock: string
    var panel: Panel
    /** The `data-goto` target of each `.pill` button, and which carry `active`. */
    const pills: seq<string>
    var navActive: seq<bool>
    var breakSeconds: Option<int>
    var breakRunning: bool
    /** What `#breakCountdown` shows. */
    var breakFace: Face
    /** One flag per filter chip, in chip order. */
    var chipActive: seq<bool>

    function TimerState(): Timer
      reads this
    {
      Timer(remaining, timerRunning, timerFace, progressWidth)
    }

    function BreakState(): BreakTimer
      reads this
    {
      BreakTimer(breakSeconds, breakRunning, breakFace)
    }

    predicate Valid()
      reads this
    {
      |navActive| == |pills| && |chipActive| == |Tags(GalleryItems)|
    }

    /**
     * The page's set-up: the first block selected and highlighted, no chip
     * active, and the break face drawn from the minutes input. The markup's
     * own initial texts are not part of this model; they start empty here.
     */
    constructor (pillTargets: seq<string>, breakMinutes: string)
      ensures Valid() && pills == pillTargets
      ensures TimerState() == Timer(0, false, MarkupFace, 0.0) && currentBlock == "structure"
      ensures panel == Panel("structure", "", "", "")
      ensures navActive == Highlight(pills, "structure")
      ensures BreakState() == AfterBreakChange(BreakTimer(None, false, MarkupFace), breakMinutes)
      ensures forall i :: 0 <= i < |chipActive| ==> !chipActive[i]
    {
      remaining, timerRunning, timerFace, progressWidth := 0, false, MarkupFace, 0.0;
      currentBlock := "structure";
      panel := Panel("structure", "", "", "");
      pills := pillTargets;
      navActive := Highlight(pillTargets, "structure");
      breakRunning := false;
      var seconds := BreakSeconds(breakMinutes);
      breakSeconds := seconds;
      breakFace := BreakClock(seconds);
      chipActive := seq(|Tags(GalleryItems)|, _ => false);
    }

    /** `tick()`. */
    method Tick()
      modifies this`remaining, this`timerRunning, this`timerFace, this`progressWidth
      ensures TimerState() == AfterTick(old(TimerState()), currentBlock)
    {
      if remaining < 0 {
        StopTimer();
        return;
      }
      var mins := remaining / 60;
      var secs := remaining % 60;
      assert secs == JsRem(remaining, 60);
      timerFace := Face(mins, secs);
      var total := Total(currentBlock) as real;
      var x := (total - remaining as real) / total * 100.0;
      progressWidth := if x < 100.0 then x else 100.0;
      assert progressWidth == Progress(currentBlock, remaining);
      remaining := remaining - 1;
    }

    /** `stopTimer()`. */
    method StopTimer()
      modifies this`timerRunning
      ensures !timerRunning
    {
      timerRunning := false;
    }

    /** `startTimer(minutes)`. */
    method StartTimer(minutes: int)
      modifies this`remaining, this`timerRunning, this`timerFace, this`progressWidth
      ensures TimerState() == AfterStart(old(TimerState()), currentBlock, minutes)
    {
      remaining := minutes * 60;
      Tick();
      timerRunning := true;
    }

    /** The start button: time the current block and fill in its panel texts; nothing for an unknown block. */
    method ClickStart()
      modifies this`remaining, this`timerRunning, this`timerFace, this`progressWidth, this`panel
      ensures var b := FindBlock(Blocks, currentBlock);
        if b.Some? then
          && TimerState() == AfterStart(old(TimerState()), currentBlock, b.value.duration)
          && panel == old(panel).(name := b.value.name, duration := DurationText(b.value.duration),
                                  next := NextPreview(Blocks, currentBlock))
        else TimerState() == old(TimerState()) && panel == old(panel)
    {
      var b := FindBlock(Blocks, currentBlock);
      if b.Some? {
        StartTimer(b.value.duration);
        panel := panel.(duration := DurationText(b.value.duration), name := b.value.name);
        panel := panel.(next := NextPreview(Blocks, b.value.id));
      }
    }

    /**
     * `gotoSection(id)`: when the page has an element with that id, it becomes
     * the current block, the pills and the panel follow; otherwise nothing changes.
     */
    method GotoSection(id: string, onPage: bool)
      requires Valid()
      modifies this`currentBlock, this`navActive, this`panel
      ensures Valid()
      ensures onPage ==> currentBlock == id && navActive == Highlight(pills, id)
                         && panel == UpdatePanel(old(panel), id)
      ensures !onPage ==> currentBlock == old(currentBlock) && navActive == old(navActive)
                          && panel == old(panel)
    {
      if !onPage {
        return;
      }
      currentBlock := id;
      navActive := Highlight(pills, id);
      panel := UpdatePanel(panel, id);
    }

    /** The minutes input changes. */
    method BreakChange(value: string)
      modifies this`breakSeconds, this`breakFace
      ensures BreakState() == AfterBreakChange(old(BreakState()), value)
    {
      breakSeconds := BreakSeconds(value);
      breakFace := BreakClock(breakSeconds);
    }

    /** The break's start button, with the minutes input's current value. */
    method BreakStart(value: string)
      modifies this`breakSeconds, this`breakFace, this`breakRunning
      ensures BreakState() == AfterBreakStart(old(BreakState()), value)
    {
      breakRunning := true;
      BreakChange(value);
    }

    /** One beat of the break interval. */
    method BreakTick()
      modifies this`breakSeconds, this`breakFace, this`breakRunning
      ensures BreakState() == AfterBreakTick(old(BreakState()))
    {
      if breakSeconds.Some? {
        breakSeconds := Some(breakSeconds.value - 1);
      }
      if breakSeconds.Some? && breakSeconds.value < 0 {
        breakRunning := false;
        return;
      }
      breakFace := BreakClock(breakSeconds);
    }

    /** The break's stop button. */
    method BreakStop()
      modifies this`breakRunning
      ensures BreakState() == old(BreakState()).(running := false)
    {
      breakRunning := false;
    }

    /** A click on filter chip k: toggle it and show the gallery for the active chips. */
    method ClickChip(k: nat) returns (shown: seq<GalleryItem>)
      requires Valid() && k < |chipActive|
      modifies this`chipActive
      ensures Valid() && chipActive == Toggle(old(chipActive), k)
      ensures shown == Gallery(GalleryItems, Selected(Tags(GalleryItems), chipActive))
    {
      chipActive := chipActive[k := !chipActive[k]];
      shown := Gallery(GalleryItems, Selected(Tags(GalleryItems), chipActive));
    }
  }

  // ---------------------------------------------------------------------------
  // Properties

  lemma LectureIdsDistinct()
    ensures IdsDistinct(Blocks)
  {
  }

  /** With distinct ids, the preview of a block is the next block's name, or "Фініш" after the last. */
  lemma NextPreviewFollows(blocks: seq<Block>, i: nat)
    requires IdsDistinct(blocks) && i < |blocks|
    ensures NextPreview(blocks, blocks[i].id) == if i + 1 < |blocks| then blocks[i + 1].name else Finish
  {
    var k := FindIndex(blocks, blocks[i].id);
    assert k == i;
  }

  /** An id of no block previews the first block. */
  lemma NextPreviewUnknown(blocks: seq<Block>, id: string)
    requires |blocks| >= 1
    requires forall j :: 0 <= j < |blocks| ==> blocks[j].id != id
    ensures NextPreview(blocks, id) == blocks[0].name
  {
  }

  /** The lecture's own timetable: the break is followed by the data block, the summary by the finish. */
  lemma LecturePreviews()
    ensures NextPreview(Blocks, "break") == "Дизайн для даних"
    ensures NextPreview(Blocks, "summary") == Finish
  {
    LectureIdsDistinct();
    NextPreviewFollows(Blocks, 4);
    NextPreviewFollows(Blocks, 7);
  }

  lemma DigitsNoColon(s: string)
    requires AllDigits(s)
    ensures ':' !in s
  {
    forall i | 0 <= i < |s|
      ensures s[i] != ':'
    {
      assert IsDigit(s[i]);
    }
  }

  lemma SmallNumeral(n: nat)
    requires n < 100
    ensures |NatToString(n)| <= 2
  {
    if n >= 10 {
      assert NatToString(n / 10) == [DigitChar(n / 10)];
    }
  }

  /**
   * The face of a non-negative r reads back as r: minutes and seconds with
   * `mins * 60 + secs == r`, the seconds always two digits below 60.
   */
  lemma ClockRoundTrip(r: nat)
    ensures ReadClock(FaceText(Clock(r))) == Some(r)
    ensures var parts := Split(FaceText(Clock(r)), ':');
      |parts| == 2 && |parts[0]| >= 2 && |parts[1]| == 2 && AllDigits(parts[1]) && DigitsValue(parts[1]) < 60
  {
    var m, s := r / 60, r % 60;
    var a, b := PadStart2(IntToString(m)), PadStart2(IntToString(s));
    PadStart2Value(IntToString(m));
    PadStart2Value(IntToString(s));
    SmallNumeral(s);
    DigitsNoColon(a);
    DigitsNoColon(b);
    assert FaceText(Clock(r)) == a + [':'] + b;
    SplitAtSeparator(a, ':', b);
    SplitNoSeparator(b, ':');
    assert Split(FaceText(Clock(r)), ':') == [a, b];
  }

  lemma ZeroClock()
    ensures FaceText(Clock(0)) == "00:00"
  {
    assert IntToString(0) == "0";
  }

  /**
   * While r stays at or above zero, every tick shows the current second and
   * counts down by exactly one; the interval keeps running.
   */
  lemma {:induction false} Countdown(t: Timer, id: string, n: nat)
    requires 0 <= t.remaining && n <= t.remaining + 1
    ensures Ticks(t, id, n).remaining == t.remaining - n
    ensures Ticks(t, id, n).running == t.running
    ensures n > 0 ==> Ticks(t, id, n).display == Clock(t.remaining - n + 1)
    decreases n
  {
    if n > 0 {
      var u := AfterTick(t, id);
      if n > 1 {
        Countdown(u, id, n - 1);
      }
    }
  }

  /**
   * A block of d minutes counts down through d·60 + 1 faces, ending on 00:00
   * with a full bar; the tick after that stops the interval and leaves the
   * face as it was.
   */
  lemma BlockRunsOut(t: Timer, id: string, minutes: nat)
    ensures var u := Ticks(AfterStart(t, id, minutes), id, minutes * 60);
      && FaceText(u.display) == "00:00" && u.remaining == -1 && u.running && u.progress == 100.0
      && AfterTick(u, id) == u.(running := false)
  {
    var s := AfterStart(t, id, minutes);
    var n := minutes * 60;
    assert s.remaining == n - 1 && s.running;
    var u := Ticks(s, id, n);
    ZeroClock();
    if minutes > 0 {
      Countdown(s, id, n);
      ProgressAtZero(s, id, n);
      assert u.remaining == -1 && u.display == Clock(0);
    } else {
      ProgressBounds(id, 0);
      assert u == s;
      assert s.display == Clock(0);
    }
    assert AfterTick(u, id) == u.(running := false);
  }

  lemma {:induction false} ProgressAtZero(t: Timer, id: string, n: nat)
    requires 0 <= t.remaining && n == t.remaining + 1
    ensures Ticks(t, id, n).progress == 100.0
    decreases n
  {
    var u := AfterTick(t, id);
    if n > 1 {
      ProgressAtZero(u, id, n - 1);
    } else {
      ProgressBounds(id, 0);
    }
  }

  /** Once stopped below zero, further beats change nothing. */
  lemma StoppedIsIdle(t: Timer, id: string)
    requires t.remaining < 0 && !t.running
    ensures AfterTick(t, id) == t
  {
  }

  /** The bar grows as the countdown falls. */
  lemma ProgressMonotone(id: string, r1: int, r2: int)
    requires r1 <= r2
    ensures Progress(id, r2) <= Progress(id, r1)
  {
    var total := Total(id) as real;
    var a, b := total - r2 as real, total - r1 as real;
    PercentMonotone(a, b, total);
    assert Progress(id, r2) == Percent(a, total);
    assert Progress(id, r1) == Percent(b, total);
  }

  lemma PercentMonotone(a: real, b: real, c: real)
    requires a <= b && c > 0.0
    ensures Percent(a, c) <= Percent(b, c)
  {
    var qa, qb := a / c, b / c;
    assert qa * c == a && qb * c == b;
    assert qa <= qb by {
      if qa > qb {
        ScaleAtLeast(qa - qb, c);
      }
    }
    assert a / c * 100.0 <= b / c * 100.0;
  }

  /**
   * The break counts down from s seconds to 00:00, shown last; the beat after
   * that stops it without redrawing.
   */
  lemma {:induction false} BreakCountdown(b: BreakTimer, s: nat, n: nat)
    requires b.seconds == Some(s) && n <= s
    ensures BreakTicks(b, n).seconds == Some(s - n)
    ensures BreakTicks(b, n).running == b.running
    ensures n > 0 ==> BreakTicks(b, n).display == BreakClock(Some(s - n))
    decreases n
  {
    if n > 0 {
      var u := AfterBreakTick(b);
      assert u == b.(seconds := Some(s - 1), display := BreakClock(Some(s - 1)));
      if n > 1 {
        BreakCountdown(u, s - 1, n - 1);
      }
    }
  }

  lemma BreakRunsOut(b: BreakTimer, value: string, minutes: nat)
    requires ToNumber(value) == Some(minutes)
    ensures var u := BreakTicks(AfterBreakStart(b, value), minutes * 60);
      && u.display == Clock(0) && FaceText(u.display) == "00:00" && u.running
      && AfterBreakTick(u) == BreakTimer(Some(-1), false, Clock(0))
  {
    var started := AfterBreakStart(b, value);
    assert started == BreakTimer(Some(minutes * 60), true, Clock(minutes * 60));
    ZeroClock();
    BreakRunsOutFrom(started, minutes * 60);
  }

  lemma BreakRunsOutFrom(b: BreakTimer, s: nat)
    requires b.seconds == Some(s) && b.running && b.display == Clock(s)
    ensures var u := BreakTicks(b, s);
      && u.display == Clock(0) && u.running
      && AfterBreakTick(u) == BreakTimer(Some(-1), false, Clock(0))
  {
    BreakCountdown(b, s, s);
  }

  /** A negative number of minutes is shown once and stopped at the first beat, face unchanged. */
  lemma NegativeBreakStopsAtOnce(b: BreakTimer, value: string, minutes: int)
    ensures ToNumber(value) == Some(minutes) && minutes < 0 ==>
      AfterBreakTick(AfterBreakStart(b, value))
        == BreakTimer(Some(minutes * 60 - 1), false, Clock(minutes * 60))
  {
    if ToNumber(value) == Some(minutes) && minutes < 0 {
      NegativeStartStops(b, value, minutes * 60);
    }
  }

  /** Started with a negative number of seconds, the first beat stops the timer and leaves the face alone. */
  lemma NegativeStartStops(b: BreakTimer, value: string, secs: int)
    requires BreakSeconds(value) == Some(secs) && secs < 0
    ensures AfterBreakTick(AfterBreakStart(b, value)) == BreakTimer(Some(secs - 1), false, Clock(secs))
  {
  }

  /** Minus one minute shows as "-1:00". */
  lemma NegativeFace()
    ensures FaceText(Clock(-60)) == "-1:00"
  {
    assert IntToString(-1) == "-1";
    assert IntToString(0) == "0";
  }

  /** Input that is not a number leaves the break face at NaN:NaN and the interval running. */
  lemma NaNBreakNeverStops(b: BreakTimer, n: nat)
    ensures FaceText(AfterBreakStart(b, "x").display) == "NaN:NaN"
    ensures BreakTicks(AfterBreakStart(b, "x"), n) == AfterBreakStart(b, "x")
  {
    var x := "x";
    assert ToNumber(x) == None by {
      TrimNoSpace(x);
    }
    var started := AfterBreakStart(b, x);
    assert started.seconds == None;
    NaNTicks(started, n);
  }

  lemma {:induction false} NaNTicks(b: BreakTimer, n: nat)
    requires b.seconds == None && b.display == NaNFace
    ensures BreakTicks(b, n) == b
    decreases n
  {
    if n > 0 {
      NaNTicks(AfterBreakTick(b), n - 1);
    }
  }

  /** With no chip active the whole gallery is shown, in its order. */
  lemma GalleryUnfiltered(items: seq<GalleryItem>)
    ensures Gallery(items, []) == items
  {
    var none: seq<string> := [];
    FilterAll(items, (item: GalleryItem) => |none| == 0 || item.tag in none);
  }

  /** Filtering keeps the gallery's order: it distributes over any split of the items. */
  lemma GalleryOrder(xs: seq<GalleryItem>, ys: seq<GalleryItem>, filters: seq<string>)
    ensures Gallery(xs + ys, filters) == Gallery(xs, filters) + Gallery(ys, filters)
  {
    FilterConcat(xs, ys, (item: GalleryItem) => |filters| == 0 || item.tag in filters);
  }

  lemma {:induction false} FirstIndexExtend(xs: seq<string>, x: string, y: string)
    requires y in xs
    ensures FirstIndex(xs + [x], y) == FirstIndex(xs, y)
  {
    assert (xs + [x])[..|xs|] == xs;
  }

  /** The distinct values come in the order of their first appearance. */
  lemma {:induction false} DistinctFirstAppearance(xs: seq<string>)
    ensures forall i, j :: 0 <= i < j < |Distinct(xs)| ==>
      FirstIndex(xs, Distinct(xs)[i]) < FirstIndex(xs, Distinct(xs)[j])
  {
    if xs != [] {
      var p, x := xs[..|xs| - 1], xs[|xs| - 1];
      assert xs == p + [x];
      DistinctFirstAppearance(p);
      var d := Distinct(p);
      forall y | y in d
        ensures FirstIndex(xs, y) == FirstIndex(p, y)
      {
        FirstIndexExtend(p, x, y);
      }
      if x !in d {
        assert FirstIndex(xs, x) == |xs| - 1;
      }
    }
  }

  /** The gallery's five tags are all different, so there are five chips in item order. */
  lemma GalleryChips()
    ensures Tags(GalleryItems) == ["контраст", "ієрархія", "композиція", "колір", "типографіка"]
  {
    var ts := TagsOf(GalleryItems);
    assert ts == ["контраст", "ієрархія", "композиція", "колір", "типографіка"];
    DistinctKeeps(ts);
  }

  /** A sequence without repeats is its own set of distinct values. */
  lemma {:induction false} DistinctKeeps(xs: seq<string>)
    requires NoDuplicates(xs)
    ensures Distinct(xs) == xs
  {
    if xs != [] {
      var p := xs[..|xs| - 1];
      DistinctKeeps(p);
      assert xs[|xs| - 1] !in p;
      assert p + [xs[|xs| - 1]] == xs;
    }
  }

  /** A chip clicked twice is back where it was. */
  lemma ToggleTwice(active: seq<bool>, k: nat)
    requires k < |active|
    ensures Toggle(Toggle(active, k), k) == active
  {
  }

  /** No active chip means an empty filter list, hence the whole gallery. */
  lemma NoChipShowsAll(tags: seq<string>, active: seq<bool>)
    requires |active| == |tags|
    requires forall i :: 0 <= i < |active| ==> !active[i]
    ensures Gallery(GalleryItems, Selected(tags, active)) == GalleryItems
  {
    SelectedNone(tags, active);
    GalleryUnfiltered(GalleryItems);
  }

  lemma {:induction false} SelectedNone(tags: seq<string>, active: seq<bool>)
    requires |active| == |tags|
    requires forall i :: 0 <= i < |active| ==> !active[i]
    ensures Selected(tags, active) == []
  {
    if tags != [] {
      SelectedNone(tags[1..], active[1..]);
    }
  }

  /** With distinct targets at most one pill is active, and one is when the id has a pill. */
  lemma HighlightSingle(pills: seq<string>, id: string)
    requires NoDuplicates(pills)
    ensures forall i, j :: 0 <= i < j < |pills| ==> !(Highlight(pills, id)[i] && Highlight(pills, id)[j])
    ensures id in pills ==> exists i :: 0 <= i < |pills| && Highlight(pills, id)[i]
  {
    if id in pills {
      var i :| 0 <= i < |pills| && pills[i] == id;
      assert Highlight(pills, id)[i];
    }
  }
}

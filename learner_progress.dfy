/**
 * The progress record of the self-paced design lesson: which of the eight
 * modules are completed, the answers given to its quizzes and exercises,
 * and the checks that mark a module completed.
 *
 * A JavaScript object used as a dictionary is a `map`; an absent property
 * and `undefined` are told apart where the page tells them apart (a quiz
 * slot written with `undefined` still counts as a key).
 */
module LearnerProgress {
  import opened Wrappers
  import opened JsValues

  const ModuleIds: set<string> := {"module0", "module1", "module2", "module3", "module4", "module5", "module6", "module7"}

  /** `modules.length`. */
  const ModuleCount: nat := 8

  /** The radio groups of the opening quiz and the value each must hold (`q.answer ? 'true' : 'false'`). */
  const OpenerSlots: seq<string> := ["opener-0", "opener-1", "opener-2"]
  const OpenerKey: seq<string> := ["false", "true", "true"]

  /** The final quiz's question ids and the index of each one's correct option. */
  const FinalIds: seq<string> := ["q1", "q2", "q3", "q4", "q5", "q6"]
  const FinalKey: seq<int> := [1, 1, 0, 1, 0, 1]

  /** An option of the contrast exercise. */
  datatype ContrastOption = ContrastOption(id: string, correct: bool)

  const ContrastOptions: seq<ContrastOption> :=
    [ContrastOption("opt1", false), ContrastOption("opt2", true), ContrastOption("opt3", false)]

  /** The drag-and-drop scenarios and the visual each one calls for. */
  const ScenarioIds: seq<string> := ["s1", "s2", "s3"]
  const ScenarioAnswers: seq<string> := ["Лінійний графік", "Стовпчики", "Карта/маршрут"]

  /** The number of hotspots on the "before" dashboard. */
  const HotspotCount: nat := 3

  /** The learner's `state` object. */
  datatype Progress = Progress(
    completed: map<string, bool>,
    openerAnswers: map<string, Option<string>>,
    contrastChoice: Option<string>,
    finalAnswers: map<string, Option<string>>,
    dragMatches: map<string, string>,
    hotspotsFound: map<string, bool>)

  /** `state` before anything is loaded. */
  const Blank: Progress := Progress(map[], map[], None, map[], map[], map[])

  // ---------------------------------------------------------------------------
  // Specification of each handler

  /** `markCompleted(id)`. */
  function Mark(p: Progress, id: string): Progress {
    p.(completed := p.completed[id := true])
  }

  /** `Math.round(completedCount / modules.length * 100)`. */
  function Percent(completed: map<string, bool>): int {
    Round(|completed.Keys| as real / ModuleCount as real * 100.0)
  }

  /** With only module ids completed, the percentage lies in 0..100 and reaches 100 exactly when all are done. */
  lemma PercentRange(completed: map<string, bool>)
    requires completed.Keys <= ModuleIds
    ensures 0 <= Percent(completed) <= 100
    ensures Percent(completed) == 100 <==> completed.Keys == ModuleIds
  {
    var n := |completed.Keys|;
    var x := n as real / ModuleCount as real * 100.0;
    ModuleIdsCount();
    SubsetCard(completed.Keys, ModuleIds);
    assert x == n as real * 12.5;
    RoundMonotone(0.0, x);
    RoundInt(0);
    RoundInt(100);
    if n < 8 {
      RoundMonotone(x, 87.5);
    } else {
      assert x == 100.0;
    }
  }

  lemma ModuleIdsCount()
    ensures |ModuleIds| == ModuleCount
  {
  }

  /** A subset is smaller, and as large only when it is the whole set. */
  lemma SubsetCard(a: set<string>, b: set<string>)
    requires a <= b
    ensures |a| <= |b|
    ensures |a| == |b| ==> a == b
  {
    assert b == a + (b - a);
    assert |b| == |a| + |b - a|;
    if |a| == |b| {
      assert |b - a| == 0;
      assert b - a == {};
    }
  }

  /** `m[ks[0]] = vs[0]; …; m[ks[n-1]] = vs[n-1]`. */
  function Assign<V>(m: map<string, V>, ks: seq<string>, vs: seq<V>, n: nat): map<string, V>
    requires n <= |ks| && n <= |vs|
  {
    if n == 0 then m else Assign(m, ks, vs, n - 1)[ks[n - 1] := vs[n - 1]]
  }

  /** The number of the first n opening-quiz answers that equal the key. */
  function OpenerScore(vals: seq<Option<string>>, n: nat): (score: nat)
    requires n <= |vals| && n <= |OpenerKey|
    ensures score <= n
  {
    if n == 0 then 0
    else OpenerScore(vals, n - 1) + (if vals[n - 1] == Some(OpenerKey[n - 1]) then 1 else 0)
  }

  /** `checkOpenerQuiz()` with the checked value of each radio group (None when nothing is checked). */
  function OpenerQuiz(p: Progress, vals: seq<Option<string>>): Progress
    requires |vals| == |OpenerKey|
  {
    var q := p.(openerAnswers := Assign(p.openerAnswers, OpenerSlots, vals, 3));
    if OpenerScore(vals, 3) == 3 then Mark(q, "module1") else q
  }

  /** The number of the first n final-quiz answers with `Number(val) === correct`. */
  function FinalScore(vals: seq<Option<string>>, n: nat): (score: nat)
    requires n <= |vals| && n <= |FinalKey|
    ensures score <= n
  {
    if n == 0 then 0
    else FinalScore(vals, n - 1) + (if FinalHit(vals[n - 1], FinalKey[n - 1]) then 1 else 0)
  }

  /** `Number(val) === correct`; `Number(undefined)` is NaN and equals nothing. */
  predicate FinalHit(val: Option<string>, correct: int) {
    val.Some? && ToNumber(val.value) == Some(correct)
  }

  /** `checkFinalQuiz()`. */
  function FinalQuiz(p: Progress, vals: seq<Option<string>>): Progress
    requires |vals| == |FinalKey|
  {
    var q := p.(finalAnswers := Assign(p.finalAnswers, FinalIds, vals, 6));
    if FinalScore(vals, 6) == 6 then Mark(q, "module7") else q
  }

  /** `contrastOptions.find(o => o.id === choice)`. */
  function FindOption(options: seq<ContrastOption>, id: string): (r: Option<ContrastOption>)
    ensures r.Some? ==> r.value in options && r.value.id == id
    ensures r.None? <==> forall i :: 0 <= i < |options| ==> options[i].id != id
  {
    if options == [] then None
    else if options[0].id == id then Some(options[0])
    else FindOption(options[1..], id)
  }

  /** `checkContrast()`: nothing without a (truthy) choice; module2 when the chosen option is correct. */
  function Contrast(p: Progress): Progress {
    if p.contrastChoice.None? || p.contrastChoice.value == "" then p
    else
      var opt := FindOption(ContrastOptions, p.contrastChoice.value);
      if opt.Some? && opt.value.correct then Mark(p, "module2") else p
  }

  /** How many of the first n scenarios hold their answer (`dragMatches[s.id] === s.answer`). */
  function DragScore(matches: map<string, string>, n: nat): (correct: nat)
    requires n <= |ScenarioIds|
    ensures correct <= n
  {
    if n == 0 then 0
    else DragScore(matches, n - 1) + (if DragHit(matches, n - 1) then 1 else 0)
  }

  predicate DragHit(matches: map<string, string>, i: nat)
    requires i < |ScenarioIds|
  {
    ScenarioIds[i] in matches && matches[ScenarioIds[i]] == ScenarioAnswers[i]
  }

  /** `checkDragDrop()`. */
  function DragCheck(p: Progress): Progress {
    if DragScore(p.dragMatches, 3) == 3 then Mark(p, "module4") else p
  }

  /** `handleDrop(e, scenarioId)` with the dragged text, then `checkDragDrop()`. */
  function Drop(p: Progress, scenarioId: string, visual: string): Progress {
    DragCheck(p.(dragMatches := p.dragMatches[scenarioId := visual]))
  }

  /** A click on a hotspot: it is found, and module5 is completed once three are found. */
  function Hotspot(p: Progress, issue: string): Progress {
    var q := p.(hotspotsFound := p.hotspotsFound[issue := true]);
    if |q.hotspotsFound.Keys| >= HotspotCount then Mark(q, "module5") else q
  }

  /** `Math.max(0, 3 - Object.keys(state.hotspotsFound).length)`. */
  function Remaining(found: map<string, bool>): (r: nat)
    ensures r <= HotspotCount
    ensures r == 0 <==> |found.Keys| >= HotspotCount
  {
    if HotspotCount - |found.Keys| > 0 then HotspotCount - |found.Keys| else 0
  }

  /** The top-level keys a stored progress record carries; None is a key it lacks. */
  datatype Stored = Stored(
    completed: Option<map<string, bool>>,
    openerAnswers: Option<map<string, Option<string>>>,
    contrastChoice: Option<Option<string>>,
    finalAnswers: Option<map<string, Option<string>>>,
    dragMatches: Option<map<string, string>>,
    hotspotsFound: Option<map<string, bool>>)

  /** `{ ...state, ...stored }`: a stored key replaces the whole field, the others stay. */
  function Merge(p: Progress, s: Stored): Progress {
    Progress(
      s.completed.GetOr(p.completed),
      s.openerAnswers.GetOr(p.openerAnswers),
      s.contrastChoice.GetOr(p.contrastChoice),
      s.finalAnswers.GetOr(p.finalAnswers),
      s.dragMatches.GetOr(p.dragMatches),
      s.hotspotsFound.GetOr(p.hotspotsFound))
  }

  /** `loadState()`: None is no stored record, an empty one or one that does not parse. */
  function Load(p: Progress, stored: Option<Stored>): Progress {
    if stored.Some? then Merge(p, stored.value) else p
  }

  // ---------------------------------------------------------------------------
  // The page's state, updated in place

  class Learner {
    var completed: map<string, bool>
    var openerAnswers: map<string, Option<string>>
    var contrastChoice: Option<string>
    var finalAnswers: map<string, Option<string>>
    var dragMatches: map<string, string>
    var hotspotsFound: map<string, bool>
    /** The issues listed under "fixed", in the order they were added. */
    var fixList: seq<string>

    function State(): Progress
      reads this
    {
      Progress(completed, openerAnswers, contrastChoice, finalAnswers, dragMatches, hotspotsFound)
    }

    /** The fix list never names an issue twice. */
    predicate Valid()
      reads this
    {
      forall i, j :: 0 <= i < j < |fixList| ==> fixList[i] != fixList[j]
    }

    constructor ()
      ensures State() == Blank && fixList == [] && Valid()
    {
      completed, openerAnswers, contrastChoice := map[], map[], None;
      finalAnswers, dragMatches, hotspotsFound := map[], map[], map[];
      fixList := [];
    }

    /** `loadState()`. */
    method LoadState(stored: Option<Stored>)
      modifies this
      ensures State() == Load(old(State()), stored) && fixList == old(fixList)
    {
      if stored.Some? {
        var s := stored.value;
        if s.completed.Some? { completed := s.completed.value; }
        if s.openerAnswers.Some? { openerAnswers := s.openerAnswers.value; }
        if s.contrastChoice.Some? { contrastChoice := s.contrastChoice.value; }
        if s.finalAnswers.Some? { finalAnswers := s.finalAnswers.value; }
        if s.dragMatches.Some? { dragMatches := s.dragMatches.value; }
        if s.hotspotsFound.Some? { hotspotsFound := s.hotspotsFound.value; }
      }
    }

    /** `markCompleted(id)`. */
    method MarkCompleted(id: string)
      modifies this`completed
      ensures State() == Mark(old(State()), id)
    {
      completed := completed[id := true];
    }

    /** `checkOpenerQuiz()`: records every slot, counts the matches, completes module1 on a full score. */
    method CheckOpenerQuiz(vals: seq<Option<string>>) returns (score: nat)
      requires |vals| == |OpenerKey|
      modifies this`completed, this`openerAnswers
      ensures State() == OpenerQuiz(old(State()), vals)
      ensures score == OpenerScore(vals, 3)
    {
      score := 0;
      var i := 0;
      while i < 3
        invariant 0 <= i <= 3
        invariant score == OpenerScore(vals, i)
        invariant openerAnswers == Assign(old(openerAnswers), OpenerSlots, vals, i)
        invariant completed == old(completed)
      {
        openerAnswers := openerAnswers[OpenerSlots[i] := vals[i]];
        if vals[i] == Some(OpenerKey[i]) {
          score := score + 1;
        }
        i := i + 1;
      }
      if score == 3 {
        MarkCompleted("module1");
      }
    }

    /** `checkFinalQuiz()`: records every answer, counts the matches, completes module7 on a full score. */
    method CheckFinalQuiz(vals: seq<Option<string>>) returns (score: nat)
      requires |vals| == |FinalKey|
      modifies this`completed, this`finalAnswers
      ensures State() == FinalQuiz(old(State()), vals)
      ensures score == FinalScore(vals, 6)
    {
      score := 0;
      var i := 0;
      while i < 6
        invariant 0 <= i <= 6
        invariant score == FinalScore(vals, i)
        invariant finalAnswers == Assign(old(finalAnswers), FinalIds, vals, i)
        invariant completed == old(completed)
      {
        finalAnswers := finalAnswers[FinalIds[i] := vals[i]];
        var hit := FinalHit(vals[i], FinalKey[i]);
        assert FinalScore(vals, i + 1) == FinalScore(vals, i) + (if hit then 1 else 0);
        if hit {
          score := score + 1;
        }
        i := i + 1;
      }
      if score == 6 {
        MarkCompleted("module7");
      }
    }

    /** A click on a contrast option. */
    method ChooseContrast(id: string)
      modifies this`contrastChoice
      ensures State() == old(State()).(contrastChoice := Some(id))
    {
      contrastChoice := Some(id);
    }

    /** `checkContrast()`: None when nothing is chosen, else whether the choice is correct. */
    method CheckContrast() returns (verdict: Option<bool>)
      modifies this`completed
      ensures State() == Contrast(old(State()))
      ensures verdict.None? <==> contrastChoice.None? || contrastChoice.value == ""
      ensures verdict.Some? ==> (verdict.value <==> contrastChoice == Some("opt2"))
    {
      var choice := contrastChoice;
      if choice.None? || choice.value == "" {
        return None;
      }
      var opt := FindOption(ContrastOptions, choice.value);
      verdict := Some(opt.Some? && opt.value.correct);
      if opt.Some? && opt.value.correct {
        assert opt.value in ContrastOptions;
        assert opt.value == ContrastOptions[1];
        MarkCompleted("module2");
      }
    }

    /** `checkDragDrop()`: counts the scenarios holding their answer, completes module4 when all do. */
    method CheckDragDrop() returns (correct: nat)
      modifies this`completed
      ensures State() == DragCheck(old(State()))
      ensures correct == DragScore(dragMatches, 3)
    {
      correct := 0;
      var i := 0;
      while i < 3
        invariant 0 <= i <= 3
        invariant correct == DragScore(dragMatches, i)
        invariant completed == old(completed)
      {
        if ScenarioIds[i] in dragMatches && dragMatches[ScenarioIds[i]] == ScenarioAnswers[i] {
          correct := correct + 1;
        }
        i := i + 1;
      }
      if correct == 3 {
        MarkCompleted("module4");
      }
    }

    /** `handleDrop(e, scenarioId)`. */
    method HandleDrop(scenarioId: string, visual: string) returns (correct: nat)
      modifies this`completed, this`dragMatches
      ensures State() == Drop(old(State()), scenarioId, visual)
      ensures correct == DragScore(dragMatches, 3)
    {
      dragMatches := dragMatches[scenarioId := visual];
      correct := CheckDragDrop();
    }

    /** `addFix(issue, …)`: lists an issue unless it is already listed. */
    method AddFix(issue: string)
      requires Valid()
      modifies this`fixList
      ensures Valid()
      ensures fixList == if issue in old(fixList) then old(fixList) else old(fixList) + [issue]
    {
      if issue !in fixList {
        fixList := fixList + [issue];
      }
    }

    /** A click on a hotspot, ending with the counter's remaining number. */
    method ClickHotspot(issue: string) returns (remaining: nat)
      requires Valid()
      modifies this`completed, this`hotspotsFound, this`fixList
      ensures Valid()
      ensures State() == Hotspot(old(State()), issue)
      ensures fixList == if issue in old(fixList) then old(fixList) else old(fixList) + [issue]
      ensures remaining == Remaining(hotspotsFound)
    {
      hotspotsFound := hotspotsFound[issue := true];
      AddFix(issue);
      if |hotspotsFound.Keys| >= 3 {
        MarkCompleted("module5");
      }
      remaining := if 3 - |hotspotsFound.Keys| > 0 then 3 - |hotspotsFound.Keys| else 0;
    }
  }

  // ---------------------------------------------------------------------------
  // Properties

  /** Marking sets one flag, keeps every other one and every other field, and is idempotent. */
  lemma MarkEffect(p: Progress, id: string)
    ensures Mark(p, id).completed.Keys == p.completed.Keys + {id} && Mark(p, id).completed[id]
    ensures forall k :: k in p.completed && k != id ==> Mark(p, id).completed[k] == p.completed[k]
    ensures Mark(p, id).(completed := p.completed) == p
    ensures Mark(Mark(p, id), id) == Mark(p, id)
  {
  }

  /** After `Assign`, each listed key holds its value and every other key is untouched. */
  lemma {:induction false} AssignLookup<V>(m: map<string, V>, ks: seq<string>, vs: seq<V>, n: nat)
    requires n <= |ks| && n <= |vs|
    requires forall i, j :: 0 <= i < j < n ==> ks[i] != ks[j]
    ensures forall i :: 0 <= i < n ==> ks[i] in Assign(m, ks, vs, n) && Assign(m, ks, vs, n)[ks[i]] == vs[i]
    ensures forall k :: k !in ks[..n] ==> (k in Assign(m, ks, vs, n) <==> k in m)
    ensures forall k :: k !in ks[..n] && k in m ==> Assign(m, ks, vs, n)[k] == m[k]
  {
    if n > 0 {
      AssignLookup(m, ks, vs, n - 1);
      assert ks[..n] == ks[..n - 1] + [ks[n - 1]];
    }
  }

  lemma {:induction false} OpenerScoreFull(vals: seq<Option<string>>, n: nat)
    requires n <= |vals| && n <= |OpenerKey|
    ensures OpenerScore(vals, n) == n <==> forall i :: 0 <= i < n ==> vals[i] == Some(OpenerKey[i])
  {
    if n > 0 {
      OpenerScoreFull(vals, n - 1);
    }
  }

  /**
   * The opening quiz overwrites all three slots, even with an unchecked
   * (None) answer, touches nothing else, and completes module1 exactly
   * when all three answers are right.
   */
  lemma OpenerQuizEffect(p: Progress, vals: seq<Option<string>>)
    requires |vals| == |OpenerKey|
    ensures var q := OpenerQuiz(p, vals);
      && (forall i :: 0 <= i < 3 ==> OpenerSlots[i] in q.openerAnswers && q.openerAnswers[OpenerSlots[i]] == vals[i])
      && (forall k :: k !in OpenerSlots && k in p.openerAnswers ==> k in q.openerAnswers && q.openerAnswers[k] == p.openerAnswers[k])
      && q.completed == (if vals == [Some("false"), Some("true"), Some("true")] then p.completed["module1" := true] else p.completed)
      && q.(openerAnswers := p.openerAnswers, completed := p.completed) == p
  {
    AssignLookup(p.openerAnswers, OpenerSlots, vals, 3);
    assert OpenerSlots[..3] == OpenerSlots;
    OpenerScoreFull(vals, 3);
    if forall i :: 0 <= i < 3 ==> vals[i] == Some(OpenerKey[i]) {
      assert vals == [Some("false"), Some("true"), Some("true")];
    }
  }

  lemma FinalScoreFull(vals: seq<Option<string>>, n: nat)
    requires n <= |vals| && n <= |FinalKey|
    ensures FinalScore(vals, n) == n <==> forall i :: 0 <= i < n ==> FinalHit(vals[i], FinalKey[i])
  {
    var hits := FinalHits(vals, n);
    FinalScoreCounts(vals, n, hits);
    CountTrueFull(hits, n);
  }

  /** Which of the first n answers score. */
  function FinalHits(vals: seq<Option<string>>, n: nat): (hits: seq<bool>)
    requires n <= |vals| && n <= |FinalKey|
    ensures |hits| == n && forall i :: 0 <= i < n ==> hits[i] == FinalHit(vals[i], FinalKey[i])
  {
    seq(n, i requires 0 <= i < n => FinalHit(vals[i], FinalKey[i]))
  }

  /** The number of true entries among the first n. */
  function CountTrue(bs: seq<bool>, n: nat): (c: nat)
    requires n <= |bs|
    ensures c <= n
  {
    if n == 0 then 0 else CountTrue(bs, n - 1) + (if bs[n - 1] then 1 else 0)
  }

  lemma {:induction false} CountTrueFull(bs: seq<bool>, n: nat)
    requires n <= |bs|
    ensures CountTrue(bs, n) == n <==> forall i :: 0 <= i < n ==> bs[i]
  {
    if n > 0 {
      CountTrueFull(bs, n - 1);
    }
  }

  /** The final score counts the scoring answers. */
  lemma {:induction false} FinalScoreCounts(vals: seq<Option<string>>, n: nat, hits: seq<bool>)
    requires n <= |vals| && n <= |FinalKey|
    requires |hits| >= n && forall i :: 0 <= i < n ==> hits[i] == FinalHit(vals[i], FinalKey[i])
    ensures FinalScore(vals, n) == CountTrue(hits, n)
  {
    if n > 0 {
      FinalScoreCounts(vals, n - 1, hits);
    }
  }

  /**
   * The final quiz records all six answers and completes module7 exactly
   * when every answer reads as its correct index; an unanswered question
   * never scores.
   */
  lemma FinalQuizEffect(p: Progress, vals: seq<Option<string>>)
    requires |vals| == |FinalKey|
    ensures var q := FinalQuiz(p, vals);
      && (forall i :: 0 <= i < 6 ==> FinalIds[i] in q.finalAnswers && q.finalAnswers[FinalIds[i]] == vals[i])
      && q.completed == (if forall i :: 0 <= i < 6 ==> FinalHit(vals[i], FinalKey[i]) then p.completed["module7" := true] else p.completed)
      && ((exists i :: 0 <= i < 6 && vals[i].None?) ==> q.completed == p.completed)
  {
    AssignLookup(p.finalAnswers, FinalIds, vals, 6);
    FinalScoreFull(vals, 6);
  }

  /** The right answers, as the radio values the page uses, complete the final quiz. */
  lemma FinalQuizAllRight(p: Progress)
    ensures FinalQuiz(p, [Some("1"), Some("1"), Some("0"), Some("1"), Some("0"), Some("1")]).completed
            == p.completed["module7" := true]
  {
    var vals := [Some("1"), Some("1"), Some("0"), Some("1"), Some("0"), Some("1")];
    BitNumerals();
    FinalScoreFull(vals, 6);
  }

  /** The two answer values of the final quiz read as the numbers 1 and 0. */
  lemma BitNumerals()
    ensures ToNumber("1") == Some(1) && ToNumber("0") == Some(0)
  {
    SingleDigitNumber('1');
    SingleDigitNumber('0');
  }

  /** With no choice the contrast check does nothing; otherwise it completes module2 exactly for opt2. */
  lemma ContrastEffect(p: Progress)
    ensures p.contrastChoice.None? || p.contrastChoice == Some("") ==> Contrast(p) == p
    ensures Contrast(p) == (if p.contrastChoice == Some("opt2") then Mark(p, "module2") else p)
  {
    if p.contrastChoice.Some? && p.contrastChoice.value != "" {
      var c := p.contrastChoice.value;
      var opt := FindOption(ContrastOptions, c);
      if opt.Some? && opt.value.correct {
        assert opt.value in ContrastOptions;
        assert opt.value == ContrastOptions[1];
      }
    }
  }

  lemma {:induction false} DragScoreFull(matches: map<string, string>, n: nat)
    requires n <= |ScenarioIds|
    ensures DragScore(matches, n) == n <==> forall i :: 0 <= i < n ==> DragHit(matches, i)
  {
    if n > 0 {
      DragScoreFull(matches, n - 1);
    }
  }

  /**
   * A drop overwrites only its scenario's match; module4 is completed
   * exactly when all three scenarios then hold their answers.
   */
  lemma DropEffect(p: Progress, scenarioId: string, visual: string)
    ensures var q := Drop(p, scenarioId, visual);
      && q.dragMatches == p.dragMatches[scenarioId := visual]
      && q.completed == (if forall i :: 0 <= i < 3 ==> DragHit(q.dragMatches, i) then p.completed["module4" := true] else p.completed)
      && q.(dragMatches := p.dragMatches, completed := p.completed) == p
  {
    DragScoreFull(p.dragMatches[scenarioId := visual], 3);
  }

  /** Clicking the same hotspot again finds nothing new and leaves the counter where it was. */
  lemma HotspotRepeat(p: Progress, issue: string)
    ensures Hotspot(Hotspot(p, issue), issue).hotspotsFound == Hotspot(p, issue).hotspotsFound
    ensures Remaining(Hotspot(p, issue).hotspotsFound) <= Remaining(p.hotspotsFound)
  {
    var found := Hotspot(p, issue).hotspotsFound;
    assert found == p.hotspotsFound[issue := true];
    assert Hotspot(Hotspot(p, issue), issue).hotspotsFound == found[issue := true];
    assert found[issue := true] == found;
    FoundGrows(p.hotspotsFound, issue);
  }

  lemma FoundGrows(m: map<string, bool>, issue: string)
    ensures |m.Keys| <= |m[issue := true].Keys|
  {
    assert m[issue := true].Keys == m.Keys + {issue};
    SubsetCard(m.Keys, m.Keys + {issue});
  }

  /** module5 is completed as soon as three distinct hotspots are found, and not before. */
  lemma HotspotCompletes(p: Progress, issue: string)
    requires "module5" !in p.completed
    ensures "module5" in Hotspot(p, issue).completed <==> |p.hotspotsFound.Keys + {issue}| >= HotspotCount
  {
    assert Hotspot(p, issue).hotspotsFound.Keys == p.hotspotsFound.Keys + {issue};
  }

  /**
   * Loading is a shallow merge: a missing record changes nothing, each
   * stored key replaces its whole field, each absent key keeps its field,
   * and loading the same record twice is loading it once.
   */
  lemma LoadEffect(p: Progress, stored: Option<Stored>)
    ensures stored.None? ==> Load(p, stored) == p
    ensures stored.Some? && stored.value.completed.Some? ==> Load(p, stored).completed == stored.value.completed.value
    ensures stored.Some? && stored.value.completed.None? ==> Load(p, stored).completed == p.completed
    ensures stored.Some? && stored.value.dragMatches.Some? ==> Load(p, stored).dragMatches == stored.value.dragMatches.value
    ensures stored.Some? && stored.value.dragMatches.None? ==> Load(p, stored).dragMatches == p.dragMatches
    ensures Load(Load(p, stored), stored) == Load(p, stored)
  {
  }
}

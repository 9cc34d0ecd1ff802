/**
 * The "design without noise" lecture page: the bar demo whose bars fade and
 * shrink as the noise slider rises, the signal read-out beside the slider,
 * the catalogue of chart types by category, and the three-question quiz.
 */
module NoiseDemo {
  import opened Text
  import opened Sequences

  // ---------------------------------------------------------------------------
  // Bars

  /** One rendered bar: whether it carries `bar--noise`, its height in pixels and its opacity. */
  datatype Bar = Bar(noisy: bool, height: real, opacity: real)

  /** `Math.max(0, Math.min(1, noise / 100))`. */
  function NoiseFactor(noise: int): (nf: real)
    ensures 0.0 <= nf <= 1.0
    ensures noise <= 0 ==> nf == 0.0
    ensures noise >= 100 ==> nf == 1.0
    ensures 0 <= noise <= 100 ==> nf * 100.0 == noise as real
  {
    var q := noise as real / 100.0;
    if q > 1.0 then 1.0 else if q < 0.0 then 0.0 else q
  }

  /** How much of a bar is kept at a given noise factor: `1 - noiseFactor * 0.6`. */
  function Opacity(nf: real): real {
    1.0 - nf * 0.6
  }

  /** `Math.max(24, value * (1 - noiseFactor * 0.6))`. */
  function Height(value: int, nf: real): real {
    MaxReal(24.0, value as real * Opacity(nf))
  }

  /** `Math.max` of two numbers. */
  function MaxReal(a: real, b: real): real {
    if a >= b then a else b
  }

  /** The bar for the value at position idx. */
  function BarFor(value: int, idx: nat, nf: real): Bar {
    Bar(nf > 0.45 && idx % 2 == 0, Height(value, nf), Opacity(nf))
  }

  /** A chart container on the page; `bars` is what it holds, in order. */
  class BarContainer {
    var bars: seq<Bar>

    constructor ()
      ensures bars == []
    {
      bars := [];
    }
  }

  /**
   * `renderBars`: nothing happens when the container is missing; otherwise
   * it is emptied and receives one bar per value, in order.
   */
  method RenderBars(container: BarContainer?, values: seq<int>, noise: int)
    modifies container
    ensures container != null ==> |container.bars| == |values|
    ensures container != null ==> forall i :: 0 <= i < |values| ==>
      container.bars[i] == BarFor(values[i], i, NoiseFactor(noise))
  {
    if container == null {
      return;
    }
    container.bars := [];
    var nf := NoiseFactor(noise);
    var idx := 0;
    while idx < |values|
      invariant 0 <= idx <= |values|
      invariant |container.bars| == idx
      invariant forall i :: 0 <= i < idx ==> container.bars[i] == BarFor(values[i], i, nf)
    {
      var noisy := nf > 0.45 && idx % 2 == 0;
      var opacity := Opacity(nf);
      var height := values[idx] as real * opacity;
      if height < 24.0 {
        height := 24.0;
      }
      HeightOf(values[idx], nf, values[idx] as real * opacity);
      container.bars := container.bars + [Bar(noisy, height, opacity)];
      idx := idx + 1;
    }
  }

  lemma HeightOf(value: int, nf: real, raw: real)
    requires raw == value as real * Opacity(nf)
    ensures Height(value, nf) == if raw > 24.0 then raw else 24.0
  {
  }

  /** The opacity lies between 0.4 and 1: 1 exactly without noise, 0.4 exactly at full noise. */
  lemma OpacityRange(noise: int)
    ensures 0.4 <= Opacity(NoiseFactor(noise)) <= 1.0
    ensures Opacity(NoiseFactor(noise)) == 1.0 <==> noise <= 0
    ensures Opacity(NoiseFactor(noise)) == 0.4 <==> noise >= 100
  {
  }

  /** A bar is never below 24 pixels and never taller than its value (or 24). */
  lemma HeightBounds(value: int, noise: int)
    ensures 24.0 <= Height(value, NoiseFactor(noise))
    ensures Height(value, NoiseFactor(noise)) <= if value > 24 then value as real else 24.0
    ensures noise <= 0 ==> Height(value, NoiseFactor(noise)) == if value > 24 then value as real else 24.0
  {
    var nf := NoiseFactor(noise);
    if value >= 0 {
      assert value as real * Opacity(nf) <= value as real * 1.0;
    }
  }

  /** Raising the noise never makes a bar taller. */
  lemma MoreNoiseNoTaller(value: int, low: int, high: int)
    requires value >= 0 && low <= high
    ensures Height(value, NoiseFactor(high)) <= Height(value, NoiseFactor(low))
  {
    var a, b := NoiseFactor(low), NoiseFactor(high);
    assert a <= b;
    ScaleMono(value as real, Opacity(b), Opacity(a));
  }

  /** Scaling by a non-negative number keeps the order, also after the floor of 24. */
  lemma ScaleMono(v: real, x: real, y: real)
    requires v >= 0.0 && x <= y
    ensures MaxReal(24.0, v * x) <= MaxReal(24.0, v * y)
  {
    var d := y - x;
    assert v * d >= 0.0;
    assert v * y == v * x + v * d;
  }

  /** Exactly the even-positioned bars are marked noisy, and only above 45% noise. */
  lemma NoisyBars(value: int, idx: nat, noise: int)
    ensures BarFor(value, idx, NoiseFactor(noise)).noisy <==> noise > 45 && idx % 2 == 0
  {
  }

  // ---------------------------------------------------------------------------
  // The noise slider

  /** The six values of the demo chart. */
  const DemoValues: seq<int> := [90, 72, 66, 58, 80, 64]

  /** `100 - noise`. */
  function Signal(noise: int): int {
    100 - noise
  }

  /** On the slider's range the signal read-out and the bars' noise factor add up to the whole. */
  lemma SignalIsRemainder(noise: int)
    requires 0 <= noise <= 100
    ensures 0 <= Signal(noise) <= 100
    ensures NoiseFactor(noise) + Signal(noise) as real / 100.0 == 1.0
  {
  }

  /** The slider with its two read-outs and the demo chart it redraws. */
  class NoiseControl {
    var noiseText: string
    var signalText: string
    const demo: BarContainer

    constructor (demo: BarContainer)
      ensures this.demo == demo && noiseText == "" && signalText == ""
    {
      this.demo := demo;
      noiseText, signalText := "", "";
    }

    /** `update()`: print the noise and the signal as percentages and redraw the demo. */
    method Update(noise: int)
      modifies this, demo
      ensures noiseText == IntToString(noise) + "%"
      ensures signalText == IntToString(Signal(noise)) + "%"
      ensures |demo.bars| == |DemoValues|
      ensures forall i :: 0 <= i < |DemoValues| ==> demo.bars[i] == BarFor(DemoValues[i], i, NoiseFactor(noise))
    {
      var signal := 100 - noise;
      noiseText := IntToString(noise) + "%";
      signalText := IntToString(signal) + "%";
      RenderBars(demo, DemoValues, noise);
    }
  }

  // ---------------------------------------------------------------------------
  // Chart catalogue

  /** One chart type: its title and when to use it. */
  datatype Chart = Chart(title: string, hint: string)

  /** A category of data with its chart types. */
  datatype Category = Category(name: string, charts: seq<Chart>)

  const Catalogue: seq<Category> := [
    Category("Кількісні дані", [
      Chart("Стовпчиковий", "Порівняння підрозділів за готовністю або запасами."),
      Chart("Лінійний", "Тренд боєготовності / втрат у часі."),
      Chart("Area chart", "Обсяг поставок чи накопичення ресурсів.")]),
    Category("Якісні дані", [
      Chart("Груповані бари", "Статус готовності за категоріями (зв’язок, логістика, медичне забезпечення)."),
      Chart("Горизонтальні бари", "Ранжування завдань / черги запитів."),
      Chart("Санкей/алuvial", "Потоки або переходи станів (якщо є).")]),
    Category("Часові", [
      Chart("Лінія / area", "Динаміка ротацій, частота атак, робота конвоїв."),
      Chart("Гант / timeline", "Планування операцій, етапи підготовки."),
      Chart("Спарклайни", "Малі тренди в картках без перевантаження.")]),
    Category("Просторові", [
      Chart("Карта + heat/точки", "Концентрація подій, логістичні вузли."),
      Chart("Маршрутні лінії", "Шляхи конвоїв, час до прибуття."),
      Chart("Хороплет", "Щільність чи забезпечення по районах.")]),
    Category("Порівняння/структура", [
      Chart("Стовпчики з однаковою нульовою лінією", "Чесне порівняння станів підрозділів."),
      Chart("100% stacked", "Частки у складі ресурсів/витрат."),
      Chart("Dot plot", "Порівняння «було/стало» з мінімумом шуму.")])
  ]

  /** Whether exactly the button at k carries `active`. */
  predicate OnlyActive(active: seq<bool>, k: int) {
    forall j :: 0 <= j < |active| ==> (active[j] <==> j == k)
  }

  /** The category buttons and the chart list below them. */
  class ChartButtons {
    var active: seq<bool>
    var current: nat
    var shown: seq<Chart>

    /** One button per category, exactly the current one active, and its charts listed. */
    predicate Valid()
      reads this
    {
      |active| == |Catalogue| && current < |Catalogue|
      && OnlyActive(active, current) && shown == Catalogue[current].charts
    }

    /** `renderChartButtons()`: the first category starts active and listed. */
    constructor ()
      ensures Valid() && current == 0
    {
      active := [true, false, false, false, false];
      current := 0;
      shown := Catalogue[0].charts;
    }

    /** A click on the k-th button: clear every button, mark this one, and list its charts. */
    method Click(k: nat)
      requires Valid() && k < |Catalogue|
      modifies this
      ensures Valid() && current == k
    {
      current := k;
      var j := 0;
      while j < |active|
        invariant 0 <= j <= |active| == |Catalogue|
        invariant forall i :: 0 <= i < j ==> !active[i]
        invariant current == k && k < |Catalogue|
      {
        active := active[j := false];
        j := j + 1;
      }
      active := active[k := true];
      shown := Catalogue[k].charts;
    }
  }

  /** In a valid state exactly one button is active. */
  lemma {:induction false} OneActive(active: seq<bool>, k: nat)
    requires k < |active| && OnlyActive(active, k)
    ensures Count(active, b => b) == 1
    decreases |active|
  {
    if k == 0 {
      assert OnlyActive(active[1..], -1);
      NoneActive(active[1..]);
    } else {
      assert active[1..][k - 1] == active[k];
      assert OnlyActive(active[1..], k - 1);
      OneActive(active[1..], k - 1);
    }
  }

  lemma {:induction false} NoneActive(active: seq<bool>)
    requires OnlyActive(active, -1)
    ensures Count(active, b => b) == 0
    decreases |active|
  {
    if active != [] {
      assert OnlyActive(active[1..], -1);
      NoneActive(active[1..]);
    }
  }

  /** Every category offers three chart types, and no two categories share a name. */
  lemma CatalogueShape()
    ensures forall i :: 0 <= i < |Catalogue| ==> |Catalogue[i].charts| == 3
    ensures forall i, j :: 0 <= i < j < |Catalogue| ==> Catalogue[i].name != Catalogue[j].name
  {
  }

  // ---------------------------------------------------------------------------
  // Quiz

  /** A quiz question and its correct option. */
  datatype Question = Question(id: string, answer: string)

  const QuizKey: seq<Question> := [Question("q1", "b"), Question("q2", "b"), Question("q3", "b")]

  /** The checked option of a question is the correct one; an unanswered question is wrong. */
  predicate Correct(checked: map<string, string>, q: Question) {
    q.id in checked && checked[q.id] == q.answer
  }

  /** The verdict shown under the quiz. */
  datatype Verdict = Verdict(text: string, color: string)

  /** The colours of a perfect and of any other verdict. */
  const Accent := "var(--accent)"
  const Accent2 := "var(--accent-2)"

  function QuizVerdict(score: int): Verdict {
    if score == 3 then Verdict("3/3 — чудово! Дизайн без шуму.", Accent)
    else Verdict(IntToString(score) + "/3 — перегляньте принципи та чек-ліст.", Accent2)
  }

  /**
   * The check button: count the questions answered correctly (`checked`
   * maps a question to the value of its checked option) and give the verdict.
   */
  method CheckQuiz(checked: map<string, string>) returns (score: nat, verdict: Verdict)
    ensures score == Count(QuizKey, q => Correct(checked, q)) && score <= 3
    ensures verdict == QuizVerdict(score)
  {
    score := 0;
    var i := 0;
    while i < |QuizKey|
      invariant 0 <= i <= |QuizKey|
      invariant score + Count(QuizKey[i..], q => Correct(checked, q)) == Count(QuizKey, q => Correct(checked, q))
    {
      var q := QuizKey[i];
      assert QuizKey[i..][1..] == QuizKey[i + 1..];
      if q.id in checked && checked[q.id] == q.answer {
        score := score + 1;
      }
      i := i + 1;
    }
    if score == 3 {
      verdict := Verdict("3/3 — чудово! Дизайн без шуму.", Accent);
    } else {
      verdict := Verdict(IntToString(score) + "/3 — перегляньте принципи та чек-ліст.", Accent2);
    }
  }

  /** The success verdict appears exactly when every question is answered correctly. */
  lemma SuccessIffAllCorrect(checked: map<string, string>)
    ensures QuizVerdict(Count(QuizKey, q => Correct(checked, q))).color == Accent
      <==> forall i :: 0 <= i < |QuizKey| ==> Correct(checked, QuizKey[i])
  {
    CountAll(QuizKey, q => Correct(checked, q));
    var n := Count(QuizKey, q => Correct(checked, q));
    assert |Accent| == 13 && |Accent2| == 15;
  }
}

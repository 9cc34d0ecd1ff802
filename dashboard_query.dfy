/**
 * The request side of the incident dashboard: the query string built from a
 * parameter bag (`qs`), the filter set read from the form (`getFilters`) and
 * the error message of a failed request (`apiGet`).
 */
module DashboardQuery {
  import opened Wrappers
  import opened Text
  import opened Sequences
  import opened JsValues

  // ---------------------------------------------------------------------------
  // Query string

  type Param = (string, JsValue)
  type Pair = (string, string)

  /** qs() skips undefined, null and the empty string, and nothing else (0 and false stay). */
  predicate Omitted(v: JsValue) {
    v == Undefined || v == Null || v == Str("")
  }

  /** The entries of a JavaScript object have distinct keys. */
  predicate KeysUnique(params: seq<Param>) {
    forall i, j :: 0 <= i < j < |params| ==> params[i].0 != params[j].0
  }

  function KeysOf(u: seq<Pair>): set<string> {
    set i | 0 <= i < |u| :: u[i].0
  }

  /** The pairs the builder ends with: one per entry that is not omitted, in entry order, its value as `String(v)`. */
  function Kept(params: seq<Param>): (u: seq<Pair>)
    ensures |u| <= |params|
  {
    if params == [] then []
    else
      var rest := Kept(params[..|params| - 1]);
      var (k, v) := params[|params| - 1];
      if Omitted(v) then rest else rest + [(k, ToString(v))]
  }

  /** `URLSearchParams.set`: overwrite the first pair with that name and drop the others, or append. */
  function SetParam(u: seq<Pair>, k: string, v: string): seq<Pair>
  {
    if u == [] then [(k, v)]
    else if u[0].0 == k then [(k, v)] + Filter(u[1..], (e: Pair) => e.0 != k)
    else [u[0]] + SetParam(u[1..], k, v)
  }

  /** Setting a fresh name appends it. */
  lemma {:induction false} SetParamFresh(u: seq<Pair>, k: string, v: string)
    requires k !in KeysOf(u)
    ensures SetParam(u, k, v) == u + [(k, v)]
  {
    if u != [] {
      assert u[0].0 in KeysOf(u);
      assert KeysOf(u[1..]) <= KeysOf(u) by {
        forall x | x in KeysOf(u[1..]) ensures x in KeysOf(u) {
          var i :| 0 <= i < |u[1..]| && u[1..][i].0 == x;
          assert u[i + 1].0 == x;
        }
      }
      SetParamFresh(u[1..], k, v);
      assert [u[0]] + (u[1..] + [(k, v)]) == u + [(k, v)];
    }
  }

  /** `URLSearchParams.toString`, without percent-encoding: `k=v` pairs joined by `&`. */
  function Serialize(u: seq<Pair>): string {
    Join(seq(|u|, i requires 0 <= i < |u| => u[i].0 + "=" + u[i].1), "&")
  }

  /** `qs(params)`: walks the entries and sets every one that is not omitted. */
  method Qs(params: seq<Param>) returns (query: string)
    requires KeysUnique(params)
    ensures query == Serialize(Kept(params))
  {
    var u: seq<Pair> := [];
    var i := 0;
    while i < |params|
      invariant 0 <= i <= |params|
      invariant u == Kept(params[..i])
    {
      var (k, v) := params[i];
      assert params[..i + 1][..i] == params[..i];
      if !Omitted(v) {
        assert k !in KeysOf(u) by {
          forall j | 0 <= j < |u| ensures u[j].0 != k {
            KeptExactly(params[..i], u[j].0, u[j].1);
            var m :| 0 <= m < i && params[..i][m].0 == u[j].0;
            assert params[m].0 != params[i].0;
          }
        }
        SetParamFresh(u, k, ToString(v));
        u := SetParam(u, k, ToString(v));
      }
      i := i + 1;
    }
    assert params[..i] == params;
    query := Serialize(u);
  }

  /** The entry yields the pair (k, t) in the query. */
  predicate Carries(p: Param, k: string, t: string) {
    p.0 == k && !Omitted(p.1) && ToString(p.1) == t
  }

  /** A pair is in the query exactly when some entry carries that key and a kept value, stringified. */
  lemma {:induction false} KeptExactly(params: seq<Param>, k: string, t: string)
    ensures (k, t) in Kept(params) <==> exists i :: 0 <= i < |params| && Carries(params[i], k, t)
  {
    if params != [] {
      var n := |params| - 1;
      var init, last := params[..n], params[n];
      KeptExactly(init, k, t);
      KeptSnoc(init, last, k, t);
      assert params == init + [last];
      if (k, t) in Kept(init) {
        var i :| 0 <= i < |init| && Carries(init[i], k, t);
        assert params[i] == init[i];
      }
      if exists i :: 0 <= i < |params| && Carries(params[i], k, t) {
        var i :| 0 <= i < |params| && Carries(params[i], k, t);
        if i < n {
          assert init[i] == params[i];
        }
      }
    }
  }

  /** One more entry adds its own pair and no other. */
  lemma KeptSnoc(init: seq<Param>, last: Param, k: string, t: string)
    ensures (k, t) in Kept(init + [last]) <==> (k, t) in Kept(init) || Carries(last, k, t)
  {
    var params := init + [last];
    assert params[..|params| - 1] == init;
    assert params[|params| - 1] == last;
  }

  /** Zero and false are not omitted: they reach the query as "0" and "false". */
  lemma ZeroAndFalseKept(k: string)
    ensures Kept([(k, Num(0))]) == [(k, "0")]
    ensures Kept([(k, Bool(false))]) == [(k, "false")]
  {
    assert [(k, Num(0))][..0] == [];
    assert [(k, Bool(false))][..0] == [];
  }

  /** Reads a query string back, splitting on `&` and then on `=`. */
  function Parse(query: string): seq<seq<string>> {
    var entries := Split(query, '&');
    seq(|entries|, i requires 0 <= i < |entries| => Split(entries[i], '='))
  }

  predicate Plain(s: string) {
    '&' !in s && '=' !in s
  }

  lemma JoinPair(a: string, b: string, sep: string)
    ensures Join([a, b], sep) == a + sep + b
  {
    assert [a, b][1..] == [b];
  }

  /** Without `&` or `=` inside names and values, the serialized query reads back pair by pair. */
  lemma SerializeRoundTrip(u: seq<Pair>)
    requires |u| >= 1
    requires forall i :: 0 <= i < |u| ==> Plain(u[i].0) && Plain(u[i].1)
    ensures |Parse(Serialize(u))| == |u|
    ensures forall i :: 0 <= i < |u| ==> Parse(Serialize(u))[i] == [u[i].0, u[i].1]
  {
    var entries := seq(|u|, i requires 0 <= i < |u| => u[i].0 + "=" + u[i].1);
    assert forall i :: 0 <= i < |entries| ==> '&' !in entries[i];
    SplitJoin(entries, '&');
    forall i | 0 <= i < |u| ensures Split(entries[i], '=') == [u[i].0, u[i].1] {
      JoinPair(u[i].0, u[i].1, "=");
      SplitJoin([u[i].0, u[i].1], '=');
    }
  }

  // ---------------------------------------------------------------------------
  // Filters

  /** The raw values of the six filter inputs; a form input's value is always a string. */
  datatype FormInputs = FormInputs(
    dateFrom: string, dateTo: string, sector: string,
    direction: string, sourceType: string, minIntensity: string)

  /** The filter set of one fetch cycle; None is JavaScript's null. */
  datatype FilterSet = FilterSet(
    dateFrom: Option<string>, dateTo: Option<string>, sector: Option<string>,
    direction: Option<string>, sourceType: Option<string>, minIntensity: Option<int>)

  /** `value || null` on a string. */
  function OrNull(s: string): (r: Option<string>)
    ensures r.None? <==> s == []
    ensures r.Some? ==> r.value == s
  {
    if s == [] then None else Some(s)
  }

  /** `getFilters()`. */
  function GetFilters(form: FormInputs): (f: FilterSet)
    ensures f.dateFrom == OrNull(form.dateFrom) && f.dateTo == OrNull(form.dateTo)
    ensures f.direction == OrNull(form.direction) && f.sourceType == OrNull(form.sourceType)
    ensures f.sector.None? <==> AllSpace(form.sector)
    ensures f.sector.Some? ==> f.sector.value == Trim(form.sector) && f.sector.value != []
    ensures f.minIntensity.None? <==> form.minIntensity == [] || ToNumber(form.minIntensity).None?
    ensures f.minIntensity.Some? ==> Some(f.minIntensity.value) == ToNumber(form.minIntensity)
  {
    FilterSet(
      OrNull(form.dateFrom), OrNull(form.dateTo), OrNull(Trim(form.sector)),
      OrNull(form.direction), OrNull(form.sourceType),
      if form.minIntensity == [] then None else ToNumber(form.minIntensity))
  }

  function StrParam(o: Option<string>): JsValue {
    if o.Some? then Str(o.value) else Null
  }

  /** The filter set as the object handed to qs(), in declaration order. */
  function FilterParams(f: FilterSet): (ps: seq<Param>)
    ensures |ps| == 6 && KeysUnique(ps)
  {
    [("date_from", StrParam(f.dateFrom)), ("date_to", StrParam(f.dateTo)),
     ("sector", StrParam(f.sector)), ("direction", StrParam(f.direction)),
     ("source_type", StrParam(f.sourceType)),
     ("min_intensity", if f.minIntensity.Some? then Num(f.minIntensity.value) else Null)]
  }

  /** With distinct keys, an entry's key reaches the query exactly when its value is not omitted. */
  lemma KeyKept(ps: seq<Param>, i: nat)
    requires KeysUnique(ps) && i < |ps|
    ensures ps[i].0 in KeysOf(Kept(ps)) <==> !Omitted(ps[i].1)
  {
    var u := Kept(ps);
    var k := ps[i].0;
    if k in KeysOf(u) {
      var j :| 0 <= j < |u| && u[j].0 == k;
      KeptExactly(ps, k, u[j].1);
    }
    if !Omitted(ps[i].1) {
      KeptExactly(ps, k, ToString(ps[i].1));
      var j :| 0 <= j < |u| && u[j] == (k, ToString(ps[i].1));
    }
  }

  /** The query of a filter set read from the form carries a key exactly when its input was filled in. */
  lemma FormQueryKeys(form: FormInputs)
    ensures var u := Kept(FilterParams(GetFilters(form)));
      && ("date_from" in KeysOf(u) <==> form.dateFrom != [])
      && ("date_to" in KeysOf(u) <==> form.dateTo != [])
      && ("sector" in KeysOf(u) <==> !AllSpace(form.sector))
      && ("direction" in KeysOf(u) <==> form.direction != [])
      && ("source_type" in KeysOf(u) <==> form.sourceType != [])
      && ("min_intensity" in KeysOf(u) <==> GetFilters(form).minIntensity.Some?)
  {
    var f := GetFilters(form);
    var ps := FilterParams(f);
    FormParamsOmitted(form, f, ps);
    KeyKept(ps, 0);
    KeyKept(ps, 1);
    KeyKept(ps, 2);
    KeyKept(ps, 3);
    KeyKept(ps, 4);
    KeyKept(ps, 5);
  }

  /** Which of the six entries built from the form are omitted from the query. */
  lemma FormParamsOmitted(form: FormInputs, f: FilterSet, ps: seq<Param>)
    requires f == GetFilters(form) && ps == FilterParams(f)
    ensures ps[0].0 == "date_from" && (Omitted(ps[0].1) <==> form.dateFrom == [])
    ensures ps[1].0 == "date_to" && (Omitted(ps[1].1) <==> form.dateTo == [])
    ensures ps[2].0 == "sector" && (Omitted(ps[2].1) <==> AllSpace(form.sector))
    ensures ps[3].0 == "direction" && (Omitted(ps[3].1) <==> form.direction == [])
    ensures ps[4].0 == "source_type" && (Omitted(ps[4].1) <==> form.sourceType == [])
    ensures ps[5].0 == "min_intensity" && (Omitted(ps[5].1) <==> f.minIntensity.None?)
  {
    FilterParamsOmitted(f, ps);
    assert f.dateFrom.None? <==> form.dateFrom == [];
    assert f.dateTo.None? <==> form.dateTo == [];
    assert f.sector.None? <==> AllSpace(form.sector);
    assert f.direction.None? <==> form.direction == [];
    assert f.sourceType.None? <==> form.sourceType == [];
  }

  /** An entry of a filter set is omitted exactly when its filter is null or an empty string. */
  lemma FilterParamsOmitted(f: FilterSet, ps: seq<Param>)
    requires ps == FilterParams(f)
    ensures ps[0].0 == "date_from" && (Omitted(ps[0].1) <==> f.dateFrom.None? || f.dateFrom.value == [])
    ensures ps[1].0 == "date_to" && (Omitted(ps[1].1) <==> f.dateTo.None? || f.dateTo.value == [])
    ensures ps[2].0 == "sector" && (Omitted(ps[2].1) <==> f.sector.None? || f.sector.value == [])
    ensures ps[3].0 == "direction" && (Omitted(ps[3].1) <==> f.direction.None? || f.direction.value == [])
    ensures ps[4].0 == "source_type" && (Omitted(ps[4].1) <==> f.sourceType.None? || f.sourceType.value == [])
    ensures ps[5].0 == "min_intensity" && (Omitted(ps[5].1) <==> f.minIntensity.None?)
  {
    StrParamOmitted(f.dateFrom);
    StrParamOmitted(f.dateTo);
    StrParamOmitted(f.sector);
    StrParamOmitted(f.direction);
    StrParamOmitted(f.sourceType);
  }

  lemma StrParamOmitted(o: Option<string>)
    ensures Omitted(StrParam(o)) <==> o.None? || o.value == []
  {
  }

  // ---------------------------------------------------------------------------
  // Fetch client error path

  /** A parsed JSON body: an object with its fields, an array, or a primitive. */
  datatype Json = JObject(fields: map<string, Json>) | JArray(items: seq<Json>) | JScalar(v: JsValue)

  /** `data.<name>`: undefined unless data is an object with that field. */
  function Field(data: Json, name: string): Json {
    if data.JObject? && name in data.fields then data.fields[name] else JScalar(Undefined)
  }

  /** Objects and arrays, even empty ones, are truthy; a primitive as in `Truthy`. */
  predicate JsonTruthy(j: Json) {
    j.JScalar? ==> Truthy(j.v)
  }

  /**
   * `String(j)`: "[object Object]" for an object, the comma-joined strings of
   * the elements for an array (null and undefined elements read as empty),
   * and `String(v)` for a primitive.
   */
  function JsonString(j: Json): string
    decreases j, 0
  {
    match j
    case JObject(_) => "[object Object]"
    case JArray(items) => Join(seq(|items|, i requires 0 <= i < |items| => ElementString(items[i])), ",")
    case JScalar(v) => ToString(v)
  }

  /** An array element inside `Array.prototype.join`. */
  function ElementString(j: Json): string
    decreases j, 1
  {
    if j == JScalar(Undefined) || j == JScalar(Null) then "" else JsonString(j)
  }

  predicate DataTruthy(data: Option<Json>) {
    data.Some? && JsonTruthy(data.value)
  }

  /** `data`: null for an empty body or one JSON.parse rejects (parse == None), the parsed value otherwise. */
  function BodyData(text: string, parse: Option<Json>): (data: Option<Json>)
    ensures text == [] || parse.None? ==> data.None?
  {
    if text == [] then None else parse
  }

  /** The detail an error message reports: `detail || message` when the body provides one, else the raw text. */
  function ErrorDetail(text: string, data: Option<Json>): string {
    if DataTruthy(data) && (JsonTruthy(Field(data.value, "detail")) || JsonTruthy(Field(data.value, "message"))) then
      JsonString(if JsonTruthy(Field(data.value, "detail")) then Field(data.value, "detail") else Field(data.value, "message"))
    else text
  }

  /**
   * `apiGet` once the response is in: status, status text and body text are
   * inputs, and `parse` is what JSON.parse gives for the text (None when it
   * throws).
   */
  function ApiGet(status: int, statusText: string, text: string, parse: Option<Json>): (r: Result<Option<Json>, string>)
    ensures r.Ok? <==> 200 <= status <= 299
    ensures r.Ok? ==> r.value == BodyData(text, parse)
    ensures r.Err? ==> r.error == IntToString(status) + " " + statusText + ": " + ErrorDetail(text, BodyData(text, parse))
  {
    var data := BodyData(text, parse);
    if 200 <= status <= 299 then Ok(data)
    else Err(IntToString(status) + " " + statusText + ": " + ErrorDetail(text, data))
  }

  /** Which detail the message carries, case by case. */
  lemma ErrorDetailCases(text: string, data: Option<Json>)
    ensures !DataTruthy(data) ==> ErrorDetail(text, data) == text
    ensures DataTruthy(data) && JsonTruthy(Field(data.value, "detail")) ==>
              ErrorDetail(text, data) == JsonString(Field(data.value, "detail"))
    ensures DataTruthy(data) && !JsonTruthy(Field(data.value, "detail")) && JsonTruthy(Field(data.value, "message")) ==>
              ErrorDetail(text, data) == JsonString(Field(data.value, "message"))
    ensures DataTruthy(data) && !JsonTruthy(Field(data.value, "detail")) && !JsonTruthy(Field(data.value, "message")) ==>
              ErrorDetail(text, data) == text
  {
  }

  /** An empty or unparseable body never fails the call itself; a failed status then reports the raw text. */
  lemma UnparseableBody(status: int, statusText: string, text: string)
    ensures ApiGet(status, statusText, text, None) ==
            if 200 <= status <= 299 then Ok(None) else Err(IntToString(status) + " " + statusText + ": " + text)
  {
  }

  /** The message of a failed request starts with the status code, which reads back from its digits. */
  lemma ErrorMessageStatus(status: int, statusText: string, text: string, parse: Option<Json>)
    requires status >= 300
    ensures var r := ApiGet(status, statusText, text, parse);
      var n := |IntToString(status)|;
      r.Err? && |r.error| > n && AllDigits(r.error[..n]) && DigitsValue(r.error[..n]) == status && r.error[n] == ' '
  {
    var r := ApiGet(status, statusText, text, parse);
    var n := |IntToString(status)|;
    assert r.error[..n] == IntToString(status);
  }

  /**
   * A validation error body `{"detail": [{...}, ...]}`, as the server's
   * framework sends for a malformed query parameter, reports each error
   * object as "[object Object]".
   */
  lemma {:induction false} ObjectListDetail(objects: seq<map<string, Json>>, text: string)
    requires |objects| >= 1
    ensures var detail := JArray(seq(|objects|, i requires 0 <= i < |objects| => JObject(objects[i])));
      ErrorDetail(text, Some(JObject(map["detail" := detail]))) == ObjectTexts(|objects|)
  {
    var detail := JArray(seq(|objects|, i requires 0 <= i < |objects| => JObject(objects[i])));
    var data := JObject(map["detail" := detail]);
    assert Field(data, "detail") == detail;
    var strs := seq(|detail.items|, i requires 0 <= i < |detail.items| => ElementString(detail.items[i]));
    forall i | 0 <= i < |strs| ensures strs[i] == "[object Object]" {
      var e := JObject(objects[i]);
      assert detail.items[i] == e;
      assert JsonString(e) == "[object Object]";
      assert ElementString(e) == "[object Object]";
    }
    assert JsonString(detail) == Join(strs, ",");
    JoinObjects(strs);
  }

  /** n copies of "[object Object]" joined by commas. */
  function ObjectTexts(n: nat): string
    requires n >= 1
  {
    if n == 1 then "[object Object]" else "[object Object]," + ObjectTexts(n - 1)
  }

  lemma {:induction false} JoinObjects(strs: seq<string>)
    requires |strs| >= 1 && forall i :: 0 <= i < |strs| ==> strs[i] == "[object Object]"
    ensures Join(strs, ",") == ObjectTexts(|strs|)
  {
    if |strs| > 1 {
      JoinObjects(strs[1..]);
    }
  }

  /** The error message for such a body with one error: status, status text and one placeholder. */
  lemma ValidationErrorMessage(statusText: string, text: string, o: map<string, Json>)
    requires text != []
    ensures ApiGet(422, statusText, text, Some(JObject(map["detail" := JArray([JObject(o)])])))
      == Err("422" + " " + statusText + ": " + "[object Object]")
  {
    var objects := [o];
    ObjectListDetail(objects, text);
    var data := JObject(map["detail" := JArray([JObject(o)])]);
    assert JArray([JObject(o)]) == JArray(seq(|objects|, i requires 0 <= i < |objects| => JObject(objects[i])));
    assert BodyData(text, Some(data)) == Some(data);
    assert ErrorDetail(text, Some(data)) == "[object Object]";
    StatusDigits();
  }

  lemma StatusDigits()
    ensures IntToString(422) == "422"
  {
    assert NatToString(4) == "4";
    assert NatToString(42) == "42";
  }
}

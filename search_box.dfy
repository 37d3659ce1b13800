/** `runSearch` in frontend/src/components/AIJobSearchBox.jsx: the body the worker's
    search posts to the recommendation endpoint, built from the two salary inputs. */
module SearchBox {
  import opened Outcomes
  import opened JsValues
  import opened JobScores

  /** `text ? Number(text) : null`; `None` is `null`, `Number` on text is `parse`. */
  function InputNumber(text: string, parse: string -> JsNumber): Option<JsNumber> {
    if text != "" then Some(parse(text)) else None
  }

  /** Truthiness of such a value: a number other than 0 and NaN. */
  predicate Usable(v: Option<JsNumber>) {
    v.Some? && v.value.Num? && v.value.value != 0.0
  }

  /** The request body: the rounded mean of both usable bounds, else the one usable bound,
      else no salary preference at all. */
  function SearchBody(salaryMin: string, salaryMax: string, parse: string -> JsNumber): map<string, Json> {
    var min, max := InputNumber(salaryMin, parse), InputNumber(salaryMax, parse);
    if Usable(min) && Usable(max) then
      map["salaryPreference" := JNum(MathRound((min.value.value + max.value.value) / 2.0) as real)]
    else if Usable(min) then map["salaryPreference" := JNum(min.value.value)]
    else if Usable(max) then map["salaryPreference" := JNum(max.value.value)]
    else map[]
  }

  /** `runSearch` up to the request: nothing is sent without a user token; otherwise the
      body is filled by the source's conditional assignments. */
  method RunSearch(userToken: string, salaryMin: string, salaryMax: string, parse: string -> JsNumber)
    returns (request: Option<map<string, Json>>)
    ensures userToken == "" <==> request.None?
    ensures request.Some? ==> request.value == SearchBody(salaryMin, salaryMax, parse)
  {
    if userToken == "" {
      return None;
    }
    var body: map<string, Json> := map[];
    var min := if salaryMin != "" then Some(parse(salaryMin)) else None;
    var max := if salaryMax != "" then Some(parse(salaryMax)) else None;
    if Usable(min) && Usable(max) {
      body := body["salaryPreference" := JNum(MathRound((min.value.value + max.value.value) / 2.0) as real)];
    } else if Usable(min) {
      body := body["salaryPreference" := JNum(min.value.value)];
    } else if Usable(max) {
      body := body["salaryPreference" := JNum(max.value.value)];
    }
    request := Some(body);
  }

  /** Empty inputs, zero and text that is not a number count as absent; with no usable
      bound the body carries no salary preference. */
  lemma NoUsableBound(salaryMin: string, salaryMax: string, parse: string -> JsNumber)
    requires salaryMin == "" || parse(salaryMin) == NaN || parse(salaryMin) == Num(0.0)
    requires salaryMax == "" || parse(salaryMax) == NaN || parse(salaryMax) == Num(0.0)
    ensures "salaryPreference" !in SearchBody(salaryMin, salaryMax, parse)
  {
  }

  /** With one usable bound the preference is that bound. */
  lemma SingleBound(salaryMin: string, salaryMax: string, parse: string -> JsNumber, x: real)
    requires x != 0.0
    ensures salaryMin != "" && parse(salaryMin) == Num(x) && !Usable(InputNumber(salaryMax, parse))
      ==> SearchBody(salaryMin, salaryMax, parse) == map["salaryPreference" := JNum(x)]
    ensures salaryMax != "" && parse(salaryMax) == Num(x) && !Usable(InputNumber(salaryMin, parse))
      ==> SearchBody(salaryMin, salaryMax, parse) == map["salaryPreference" := JNum(x)]
  {
  }

  /** With whole-number bounds the rounded mean lies between them. */
  lemma MeanBetweenWholeBounds(a: int, b: int)
    requires a <= b
    ensures a <= MathRound((a as real + b as real) / 2.0) <= b
  {
  }

  /** Fractional bounds can send a preference below both: 1.2 and 1.3 send 1. */
  lemma MeanBelowFractionalBounds()
    ensures MathRound((1.2 + 1.3) / 2.0) == 1
    ensures (MathRound((1.2 + 1.3) / 2.0) as real) < 1.2
  {
  }

  /** The backend resolves exactly the preference the search box sends: the number in the
      body when it is not 0, otherwise none (the profile's, which the schema lacks). */
  lemma BackendReadsSentPreference(salaryMin: string, salaryMax: string, parse: string -> JsNumber,
                                   toNumber: Json -> JsNumber)
    ensures var body := SearchBody(salaryMin, salaryMax, parse);
      var pref := ResolvePreference(RequestPreference(Some(body), toNumber), None);
      && ("salaryPreference" !in body ==> pref == None)
      && (forall x :: body == map["salaryPreference" := JNum(x)] ==> pref == (if x != 0.0 then Some(x) else None))
  {
    var body := SearchBody(salaryMin, salaryMax, parse);
    assert "salaryMin" !in body && "salaryMax" !in body;
  }
}

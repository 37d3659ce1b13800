/** JavaScript values as they arrive in request bodies and scraped scheme records:
    JSON values, `undefined` (an absent `Option`), truthiness and numbers that may be NaN. */
module JsValues {
  import opened Outcomes

  /** A JSON value; an object keeps its keys in insertion order. */
  datatype Json =
    | JNull
    | JBool(b: bool)
    | JNum(n: real)
    | JStr(s: string)
    | JArr(items: seq<Json>)
    | JObj(fields: seq<(string, Json)>)

  /** A JavaScript number after arithmetic: NaN or a (finite) real. */
  datatype JsNumber = NaN | Num(value: real)

  /** JavaScript truthiness of a JSON value. */
  predicate Truthy(v: Json) {
    match v
    case JNull => false
    case JBool(b) => b
    case JNum(n) => n != 0.0
    case JStr(s) => s != ""
    case JArr(_) => true
    case JObj(_) => true
  }

  /** Truthiness of a value that may be `undefined` (`None`). */
  predicate Defined(v: Option<Json>) {
    v.Some? && Truthy(v.value)
  }

  /** `body[k]`: `None` when the key is absent. */
  function Field(body: map<string, Json>, k: string): Option<Json> {
    if k in body then Some(body[k]) else None
  }

  /** What `Number(v)` must do on the values whose conversion does not involve parsing;
      strings, arrays and objects are left to the conversion itself. */
  ghost predicate IsToNumber(toNumber: Json -> JsNumber) {
    && (forall x :: toNumber(JNum(x)) == Num(x))
    && toNumber(JBool(true)) == Num(1.0)
    && toNumber(JBool(false)) == Num(0.0)
    && toNumber(JNull) == Num(0.0)
  }

  function Add(a: JsNumber, b: JsNumber): JsNumber {
    if a.NaN? || b.NaN? then NaN else Num(a.value + b.value)
  }

  function DivBy(a: JsNumber, d: real): JsNumber
    requires d != 0.0
  {
    if a.NaN? then NaN else Num(a.value / d)
  }

  /** `x || 0` on a number: NaN (and 0) become 0. */
  function OrZero(x: JsNumber): (r: real)
    ensures x.NaN? ==> r == 0.0
  {
    if x.Num? then x.value else 0.0
  }

  /** `Math.round`: to the nearest integer, halves upward. */
  function MathRound(x: real): (r: int)
    ensures x - 0.5 < r as real <= x + 0.5
  {
    (x + 0.5).Floor
  }
}

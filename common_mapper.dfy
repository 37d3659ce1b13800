/** `mapCommon` in backend/scripts/mappers/commonMapper.js: turns one scraped scheme record
    into the canonical scheme shape. Field names are looked up through a list of candidate
    keys, exact key first and then ignoring case; values are coerced to strings or arrays.
    `JSON.stringify` is the parameter `stringify`, and a record whose name is missing,
    where `JSON.stringify(undefined).slice` throws, maps to `None`. */
module CommonMapper {
  import opened Text
  import opened Outcomes
  import opened JsValues

  /** A record: its own keys, in `Object.keys` order, with their values. */
  type Record = seq<(string, Json)>

  /** The value of the own property `k`, if there is one (the first entry with that key). */
  function Own(record: Record, k: string): (r: Option<Json>)
    ensures r.Some? ==> (k, r.value) in record
    ensures r.None? <==> forall p :: p in record ==> p.0 != k
  {
    if record == [] then None
    else if record[0].0 == k then Some(record[0].1)
    else Own(record[1..], k)
  }

  /** `Object.keys(record).find(rk => rk.toLowerCase() === k.toLowerCase())`, returning the
      value under the key found. */
  function CaseFind(record: Record, k: string): (r: Option<Json>)
    ensures r.Some? ==> exists p :: p in record && Lower(p.0) == Lower(k) && p.1 == r.value
    ensures r.None? <==> forall p :: p in record ==> Lower(p.0) != Lower(k)
  {
    if record == [] then None
    else if Lower(record[0].0) == Lower(k) then Some(record[0].1)
    else CaseFind(record[1..], k)
  }

  /** `get(...keys)`: the first candidate key that is non-empty and names a property. An
      exact key with a value other than null wins; otherwise the first key equal to it up
      to case, whatever its value (null included). `None` is `undefined`. The key found
      ignoring case has the candidate's length, so it is never the falsy "". */
  function Get(record: Record, keys: seq<string>): Option<Json> {
    if keys == [] then None
    else
      var k := keys[0];
      if k == "" then Get(record, keys[1..])
      else if Own(record, k).Some? && Own(record, k).value != JNull then Own(record, k)
      else if CaseFind(record, k).Some? then CaseFind(record, k)
      else Get(record, keys[1..])
  }

  /** An exact key is also found ignoring case. */
  lemma OwnIsFound(record: Record, k: string)
    requires Own(record, k).Some?
    ensures CaseFind(record, k).Some?
  {
    assert (k, Own(record, k).value) in record;
  }

  /** `get` answers `undefined` exactly when no non-empty candidate names a property, even
      up to case; otherwise it answers for the first non-empty candidate found up to case:
      its exact-key value when that is not null, else the value under the first key equal
      to it up to case (null included), which is a value of the record. */
  lemma {:induction false} GetSpec(record: Record, keys: seq<string>)
    ensures Get(record, keys).None? <==>
      forall i :: 0 <= i < |keys| && keys[i] != "" ==> CaseFind(record, keys[i]).None?
    ensures Get(record, keys).Some? ==> exists i :: FirstFoundAt(record, keys, i)
    ensures Get(record, keys).Some? ==> exists p :: p in record && p.1 == Get(record, keys).value
  {
    if keys != [] {
      GetSpec(record, keys[1..]);
      var k := keys[0];
      if k != "" && Own(record, k).Some? {
        OwnIsFound(record, k);
        assert (k, Own(record, k).value) in record;
      }
      assert forall i :: 1 <= i < |keys| ==> keys[i] == keys[1..][i - 1];
      if Get(record, keys).Some? {
        if k != "" && CaseFind(record, k).Some? {
          assert FirstFoundAt(record, keys, 0);
        } else {
          var i :| FirstFoundAt(record, keys[1..], i);
          FirstFoundShift(record, keys, i);
        }
      }
    }
  }

  /** Candidate `i` is the first non-empty one found up to case, and `get` answers with its
      non-null exact-key value, or else its first value up to case. */
  predicate FirstFoundAt(record: Record, keys: seq<string>, i: int) {
    && 0 <= i < |keys| && keys[i] != "" && CaseFind(record, keys[i]).Some?
    && (forall j :: 0 <= j < i && keys[j] != "" ==> CaseFind(record, keys[j]).None?)
    && Get(record, keys) ==
         if Own(record, keys[i]).Some? && Own(record, keys[i]).value != JNull then Own(record, keys[i])
         else CaseFind(record, keys[i])
  }

  /** Skipping a first candidate that is empty or not found moves the first found one by one. */
  lemma FirstFoundShift(record: Record, keys: seq<string>, i: int)
    requires keys != [] && (keys[0] == "" || CaseFind(record, keys[0]).None?)
    requires FirstFoundAt(record, keys[1..], i)
    ensures FirstFoundAt(record, keys, i + 1)
  {
    assert keys[0] != "" ==> Own(record, keys[0]).None?;
    assert Get(record, keys) == Get(record, keys[1..]);
    assert keys[i + 1] == keys[1..][i];
    forall j | 0 <= j < i + 1 && keys[j] != "" ensures CaseFind(record, keys[j]).None? {
      if j > 0 {
        assert keys[j] == keys[1..][j - 1];
      }
    }
  }

  /** Once the first non-empty candidate is found ignoring case, the later candidates are
      never tried, even when the value found is null. */
  lemma GetStopsAtFirstFound(record: Record, k: string, later: seq<string>)
    requires k != "" && CaseFind(record, k).Some?
    ensures Get(record, [k] + later) == Get(record, [k])
    ensures Get(record, [k] + later).Some?
  {
    assert ([k] + later)[1..] == later;
  }

  /** Empty candidates are skipped. */
  lemma GetSkipsEmpty(record: Record, later: seq<string>)
    ensures Get(record, [""] + later) == Get(record, later)
  {
    assert ([""] + later)[1..] == later;
  }

  /** A record with a null `name` and a `title`: `get('name', 'title', ...)` stops at the
      null name and never reaches the title. */
  lemma NullNameHidesTitle()
    ensures Get([("title", JStr("PM Kisan")), ("name", JNull)], NameKeys) == Some(JNull)
  {
    var record: Record := [("title", JStr("PM Kisan")), ("name", JNull)];
    assert Lower("name") == "name" && Lower("title") == "title";
    assert CaseFind(record, "name") == Some(JNull);
    GetStopsAtFirstFound(record, "name", NameKeys[1..]);
    assert NameKeys == ["name"] + NameKeys[1..];
  }

  /** Where the record comes from: `sourceMeta.scope` and `sourceMeta.state`. */
  datatype SourceMeta = SourceMeta(scope: Option<Json>, state: Option<Json>)

  /** The canonical scheme; `None` fields are `undefined`. */
  datatype Scheme = Scheme(
    name: string,
    shortDescription: Option<string>,
    fullDescription: Option<string>,
    applyUrl: Option<string>,
    infoUrl: Option<string>,
    eligibilityText: Option<string>,
    documentsRequired: seq<Json>,
    categories: seq<Json>,
    scope: Json,
    state: Option<Json>)

  const NameKeys: seq<string> := ["name", "title", "scheme_name", "scheme"]
  const ShortKeys: seq<string> := ["short_description", "summary", "description"]
  const FullKeys: seq<string> := ["full_description", "description", "details", "about"]
  const ApplyKeys: seq<string> := ["apply_url", "applylink", "apply_link", "website", "url", "link"]
  const InfoKeys: seq<string> := ["info_url", "info", "info_link"]
  const EligibilityKeys: seq<string> := ["eligibility", "eligibility_text", "eligibility_criteria", "who_can_apply"]
  const DocumentKeys: seq<string> := ["documents_required", "documents", "required_documents"]
  const CategoryKeys: seq<string> := ["categories", "category", "scheme_category"]

  /** `a || b` on values that may be `undefined`. */
  function Or(a: Option<Json>, b: Option<Json>): Option<Json> {
    if Defined(a) then a else b
  }

  /** `typeof v === 'string' ? v : undefined`. */
  function AsString(v: Option<Json>): (r: Option<string>)
    ensures r.Some? <==> v.Some? && v.value.JStr?
  {
    if v.Some? && v.value.JStr? then Some(v.value.s) else None
  }

  /** `v || []`, then `Array.isArray(v) ? v : (v ? [v] : [])`. */
  function AsArray(v: Option<Json>): seq<Json> {
    var w := Or(v, Some(JArr([])));
    if w.value.JArr? then w.value.items
    else if Truthy(w.value) then [w.value]
    else []
  }

  /** The first `n` characters, as `slice(0, n)`. */
  function Prefix(s: string, n: nat): string {
    if |s| <= n then s else s[..n]
  }

  /** `name`: kept when a string, else its JSON text cut to 200 characters; `None` when the
      name is `undefined`, where the source throws. */
  function NameText(name: Option<Json>, stringify: Json -> string): Option<string> {
    match name
    case None => None
    case Some(JStr(s)) => Some(s)
    case Some(v) => Some(Prefix(stringify(v), 200))
  }

  /** `mapCommon(record, sourceMeta)`. */
  function MapCommon(record: Record, meta: SourceMeta, stringify: Json -> string): Option<Scheme> {
    var name := Get(record, NameKeys);
    match NameText(name, stringify)
    case None => None
    case Some(n) => Some(Assemble(record, meta, name, n))
  }

  /** The returned object, once the name `n` is known. */
  function Assemble(record: Record, meta: SourceMeta, name: Option<Json>, n: string): (s: Scheme)
    ensures s.name == n
  {
    var shortDescription := Or(Get(record, ShortKeys), if name.Some? && name.value.JStr? then name else None);
    var fullDescription := Get(record, FullKeys);
    var applyUrl := Get(record, ApplyKeys);
    var infoUrl := Or(Get(record, InfoKeys), applyUrl);
    var eligibilityText := Get(record, EligibilityKeys);
    var documentsRequired := Get(record, DocumentKeys);
    var categories := Get(record, CategoryKeys);
    var scope := Or(Or(meta.scope, Get(record, ["scope"])), Some(JStr("central")));
    var state := Or(meta.state, Get(record, ["state"]));
    Scheme(
      n,
      AsString(shortDescription),
      AsString(fullDescription),
      AsString(applyUrl),
      AsString(infoUrl),
      AsString(eligibilityText),
      AsArray(documentsRequired),
      AsArray(categories),
      scope.value,
      if Defined(state) then state else None)
  }

  /** The mapping fails exactly when no name candidate names a property, even up to case. */
  lemma MapCommonFails(record: Record, meta: SourceMeta, stringify: Json -> string)
    ensures MapCommon(record, meta, stringify).None? <==>
      forall i :: 0 <= i < |NameKeys| ==> CaseFind(record, NameKeys[i]).None?
  {
    GetSpec(record, NameKeys);
  }

  /** A string name is kept as it is; any other name becomes at most 200 characters of its
      JSON text. */
  lemma MapCommonName(record: Record, meta: SourceMeta, stringify: Json -> string)
    requires MapCommon(record, meta, stringify).Some?
    ensures var s := MapCommon(record, meta, stringify).value;
      var name := Get(record, NameKeys);
      && name.Some?
      && (name.value.JStr? ==> s.name == name.value.s)
      && (!name.value.JStr? ==> |s.name| <= 200 && s.name <= stringify(name.value))
  {
    NameTextSpec(Get(record, NameKeys), stringify);
  }

  lemma NameTextSpec(name: Option<Json>, stringify: Json -> string)
    requires name.Some?
    ensures NameText(name, stringify).Some?
    ensures name.value.JStr? ==> NameText(name, stringify).value == name.value.s
    ensures !name.value.JStr? ==>
      |NameText(name, stringify).value| <= 200 && NameText(name, stringify).value <= stringify(name.value)
  {
  }

  /** The fallbacks: the short description falls back to a string name, the info link to
      the apply link. */
  lemma MapCommonFallbacks(record: Record, meta: SourceMeta, stringify: Json -> string)
    requires MapCommon(record, meta, stringify).Some?
    ensures var s := MapCommon(record, meta, stringify).value;
      && (!Defined(Get(record, ShortKeys)) && Get(record, NameKeys).value.JStr? ==>
            s.shortDescription == Some(s.name))
      && (!Defined(Get(record, InfoKeys)) ==> s.infoUrl == s.applyUrl)
  {
  }

  /** The text fields are present only when the value looked up is a string. */
  lemma MapCommonStrings(record: Record, meta: SourceMeta, stringify: Json -> string)
    requires MapCommon(record, meta, stringify).Some?
    ensures var s := MapCommon(record, meta, stringify).value;
      && (s.fullDescription.Some? <==> Get(record, FullKeys).Some? && Get(record, FullKeys).value.JStr?)
      && (s.applyUrl.Some? <==> Get(record, ApplyKeys).Some? && Get(record, ApplyKeys).value.JStr?)
      && (s.eligibilityText.Some? <==>
            Get(record, EligibilityKeys).Some? && Get(record, EligibilityKeys).value.JStr?)
  {
  }

  /** The coercion to an array keeps an array, wraps any other truthy value and turns a
      falsy one into the empty array. */
  lemma AsArraySpec(v: Option<Json>)
    ensures v.Some? && v.value.JArr? ==> AsArray(v) == v.value.items
    ensures Defined(v) && !v.value.JArr? ==> AsArray(v) == [v.value]
    ensures !Defined(v) ==> AsArray(v) == []
  {
  }

  /** The scope is the source's, else the record's, else "central", and is always truthy;
      the state is the source's, else the record's, else `undefined`. */
  lemma MapCommonScopeState(record: Record, meta: SourceMeta, stringify: Json -> string)
    requires MapCommon(record, meta, stringify).Some?
    ensures var s := MapCommon(record, meta, stringify).value;
      && Truthy(s.scope)
      && (Defined(meta.scope) ==> s.scope == meta.scope.value)
      && (!Defined(meta.scope) && Defined(Get(record, ["scope"])) ==> s.scope == Get(record, ["scope"]).value)
      && (!Defined(meta.scope) && !Defined(Get(record, ["scope"])) ==> s.scope == JStr("central"))
      && (s.state.None? <==> !Defined(meta.state) && !Defined(Get(record, ["state"])))
      && (Defined(meta.state) ==> s.state == meta.state)
  {
  }
}

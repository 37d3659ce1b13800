/** The per-job components of the recommendation score other than text and skills
    (backend/controllers/jobRecommendation.js): years of experience read from free text,
    the experience, location and salary scores, and the weighted sum of all five. */
module JobScores {
  import opened Text
  import opened Outcomes
  import opened JsValues

  function RMax(a: real, b: real): real { if a >= b then a else b }
  function RMin(a: real, b: real): real { if a <= b then a else b }
  function Abs(x: real): real { if x >= 0.0 then x else -x }

  // ---------------------------------------------------------------- parseYears

  /** The end of the run of digits that starts at `i`. */
  function DigitRunEnd(s: string, i: nat): (e: nat)
    requires i <= |s|
    ensures i <= e <= |s|
    ensures forall k :: i <= k < e ==> IsDigit(s[k])
    ensures e == |s| || !IsDigit(s[e])
    decreases |s| - i
  {
    if i < |s| && IsDigit(s[i]) then DigitRunEnd(s, i + 1) else i
  }

  predicate AllDigits(d: string) {
    forall k :: 0 <= k < |d| ==> IsDigit(d[k])
  }

  /** The decimal value of a run of digits. */
  function DigitsValue(d: string): nat
    requires AllDigits(d)
  {
    if d == [] then 0 else 10 * DigitsValue(d[..|d| - 1]) + (d[|d| - 1] as int - '0' as int)
  }

  function Pow10(n: nat): (r: nat)
    ensures r >= 1
  {
    if n == 0 then 1 else 10 * Pow10(n - 1)
  }

  /** The match of `\d+(?:\.\d+)?` that starts at the digit `s[i]`, through `parseFloat`:
      its value and the index just past it. */
  function MatchAt(s: string, i: nat): (m: (real, nat))
    requires i < |s| && IsDigit(s[i])
    ensures i < m.1 <= |s|
    ensures m.0 >= 0.0
  {
    var e := DigitRunEnd(s, i);
    var whole := DigitsValue(s[i..e]) as real;
    if e + 1 < |s| && s[e] == '.' && IsDigit(s[e + 1]) then
      var f := DigitRunEnd(s, e + 1);
      (whole + DigitsValue(s[e + 1..f]) as real / Pow10(f - e - 1) as real, f)
    else (whole, e)
  }

  /** The numbers `text.match(/(\d+(?:\.\d+)?)/g)` finds from index `i` on, left to
      right; none exactly when no digit follows `i`. */
  function Numbers(s: string, i: nat): (r: seq<real>)
    requires i <= |s|
    ensures forall x :: x in r ==> x >= 0.0
    ensures r == [] <==> forall k :: i <= k < |s| ==> !IsDigit(s[k])
    decreases |s| - i
  {
    if i == |s| then []
    else if !IsDigit(s[i]) then Numbers(s, i + 1)
    else
      var m := MatchAt(s, i);
      [m.0] + Numbers(s, m.1)
  }

  /** `Math.max(...xs)`. */
  function MaxOf(xs: seq<real>): real
    requires xs != []
  {
    if |xs| == 1 then xs[0] else RMax(MaxOf(xs[..|xs| - 1]), xs[|xs| - 1])
  }

  /** `parseYears(text)`; an empty or missing text is "". */
  function ParseYears(text: string): Option<real> {
    if text == "" then None
    else
      var ns := Numbers(text, 0);
      if ns == [] then None else Some(MaxOf(ns))
  }

  /** The maximum is one of the numbers and no number exceeds it. */
  lemma {:induction false} MaxOfSpec(xs: seq<real>)
    requires xs != []
    ensures MaxOf(xs) in xs
    ensures forall x :: x in xs ==> x <= MaxOf(xs)
  {
    if |xs| > 1 {
      MaxOfSpec(xs[..|xs| - 1]);
      assert xs == xs[..|xs| - 1] + [xs[|xs| - 1]];
    }
  }

  predicate HasDigit(s: string) {
    exists k :: 0 <= k < |s| && IsDigit(s[k])
  }

  /** `parseYears` gives null exactly for text without a digit; otherwise the largest
      number found, which is never negative. */
  lemma ParseYearsSpec(text: string)
    ensures ParseYears(text).None? <==> !HasDigit(text)
    ensures ParseYears(text).Some? ==>
      && ParseYears(text).value in Numbers(text, 0)
      && (forall x :: x in Numbers(text, 0) ==> x <= ParseYears(text).value)
      && ParseYears(text).value >= 0.0
  {
    if ParseYears(text).Some? {
      MaxOfSpec(Numbers(text, 0));
    }
  }

  /** A range "2-3 years" reads as its larger end. */
  lemma ParseYearsRangeExample()
    ensures ParseYears("2-3 years") == Some(3.0)
  {
    var s := "2-3 years";
    RangeMatches();
    assert Numbers(s, 3) == [] by {
      assert forall k :: 3 <= k < |s| ==> !IsDigit(s[k]);
    }
    assert Numbers(s, 0) == [2.0, 3.0];
  }

  lemma RangeMatches()
    ensures MatchAt("2-3 years", 0) == (2.0, 1)
    ensures MatchAt("2-3 years", 2) == (3.0, 3)
  {
    var s := "2-3 years";
    assert DigitsValue("2") == 2 && DigitsValue("3") == 3;
    assert DigitRunEnd(s, 0) == 1;
    assert DigitRunEnd(s, 2) == 3;
  }

  /** A fractional part is kept. */
  lemma ParseYearsFractionExample()
    ensures ParseYears("1.5 yrs") == Some(1.5)
  {
    var t := "1.5 yrs";
    assert DigitsValue("1") == 1 && DigitsValue("5") == 5;
    assert DigitRunEnd(t, 0) == 1 && DigitRunEnd(t, 2) == 3;
    assert t[2..3] == "5";
    assert MatchAt(t, 0) == (1.5, 3);
    assert Numbers(t, 3) == [] by {
      assert forall k :: 3 <= k < |t| ==> !IsDigit(t[k]);
    }
    assert Numbers(t, 0) == [1.5];
  }

  /** Text without digits yields no years. */
  lemma ParseYearsNoDigitExample()
    ensures ParseYears("fresher") == None
  {
    var f := "fresher";
    assert forall k :: 0 <= k < |f| ==> !IsDigit(f[k]);
  }

  // ---------------------------------------------------------------- experience

  /** `expScore`: neutral 0.5 unless both years are known; otherwise one minus the gap
      relative to the job's years (at least 1), floored at 0. */
  function ExperienceScore(userExp: Option<real>, jobExp: Option<real>): real {
    if userExp.Some? && jobExp.Some? then
      RMax(0.0, 1.0 - Abs(userExp.value - jobExp.value) / RMax(1.0, jobExp.value))
    else 0.5
  }

  /** The experience score lies in [0,1], is 0.5 when either side is unknown, and is 1
      exactly when both are known and equal. */
  lemma ExperienceScoreSpec(userExp: Option<real>, jobExp: Option<real>)
    ensures 0.0 <= ExperienceScore(userExp, jobExp) <= 1.0
    ensures userExp.None? || jobExp.None? ==> ExperienceScore(userExp, jobExp) == 0.5
    ensures ExperienceScore(userExp, jobExp) == 1.0 <==> userExp.Some? && jobExp.Some? && userExp.value == jobExp.value
  {
    if userExp.Some? && jobExp.Some? {
      var gap, d := Abs(userExp.value - jobExp.value), RMax(1.0, jobExp.value);
      GapRatio(gap, d);
    }
  }

  lemma GapRatio(gap: real, d: real)
    requires gap >= 0.0 && d >= 1.0
    ensures gap / d >= 0.0
    ensures gap / d == 0.0 <==> gap == 0.0
  {
  }

  /** For a fixed job, a smaller experience gap never scores lower. */
  lemma ExperienceScoreMonotone(u1: real, u2: real, j: real)
    requires Abs(u1 - j) <= Abs(u2 - j)
    ensures ExperienceScore(Some(u1), Some(j)) >= ExperienceScore(Some(u2), Some(j))
  {
    var d := RMax(1.0, j);
    DivMonotone(Abs(u1 - j), Abs(u2 - j), d);
  }

  lemma DivMonotone(a: real, b: real, d: real)
    requires a <= b && d > 0.0
    ensures a / d <= b / d
  {
    assert b / d - a / d == (b - a) / d;
  }

  // ---------------------------------------------------------------- location

  /** `locScore`: 0.5 when the address or the location is missing or empty; otherwise 1
      for equal lowercased strings, 0.6 when one contains the other, else 0. */
  function LocationScore(address: string, location: string): real {
    if address == "" || location == "" then 0.5
    else
      var ua, jl := Lower(address), Lower(location);
      if jl == ua then 1.0
      else if Contains(jl, ua) || Contains(ua, jl) then 0.6
      else 0.0
  }

  /** The location score takes one of four values, does not depend on which side is the
      address, is 1 exactly on lowercase equality of two non-empty strings and 0.6
      exactly on strict containment. */
  lemma LocationScoreSpec(address: string, location: string)
    ensures LocationScore(address, location) in {0.0, 0.5, 0.6, 1.0}
    ensures LocationScore(address, location) == LocationScore(location, address)
    ensures LocationScore(address, location) == 0.5 <==> address == "" || location == ""
    ensures LocationScore(address, location) == 1.0 <==>
      address != "" && location != "" && Lower(address) == Lower(location)
    ensures LocationScore(address, location) == 0.6 <==>
      && address != "" && location != "" && Lower(address) != Lower(location)
      && (Contains(Lower(location), Lower(address)) || Contains(Lower(address), Lower(location)))
  {
  }

  /** Case does not matter: "Pune" and "pune, maharashtra" are a partial match. */
  lemma LocationScoreExample()
    ensures LocationScore("Pune", "pune, Maharashtra") == 0.6
  {
    var ua, jl := Lower("Pune"), Lower("pune, Maharashtra");
    assert ua == "pune";
    assert OccursAt(jl, ua, 0);
  }

  // ---------------------------------------------------------------- salary

  /** What `reqPref` evaluates to. */
  datatype RequestPref =
    | NoBody                 // `req.body` is undefined
    | NoPreference           // `null`: no preference and no bounds in the body
    | Given(v: Json)         // the body's truthy `salaryPreference`, whatever its type
    | Averaged(n: JsNumber)  // the average of the truthy bounds, or the one given

  /** `reqPref`: the body's truthy salaryPreference, else the average of salaryMin and
      salaryMax when both are truthy, or the single truthy one; `Number` is `toNumber`. */
  function RequestPreference(body: Option<map<string, Json>>, toNumber: Json -> JsNumber): RequestPref {
    match body
    case None => NoBody
    case Some(b) =>
      var sp, mn, mx := Field(b, "salaryPreference"), Field(b, "salaryMin"), Field(b, "salaryMax");
      if Defined(sp) then Given(sp.value)
      else if Defined(mn) || Defined(mx) then
        var lo := if Defined(mn) then toNumber(mn.value) else Num(0.0);
        var hi := if Defined(mx) then toNumber(mx.value) else Num(0.0);
        Averaged(DivBy(Add(lo, hi), if Defined(mn) && Defined(mx) then 2.0 else 1.0))
      else NoPreference
  }

  /** `pref`: the request value when it is a number other than NaN, else the profile's. */
  function ResolvePreference(r: RequestPref, profile: Option<real>): Option<real> {
    match r
    case Given(JNum(x)) => Some(x)
    case Averaged(Num(x)) => Some(x)
    case _ => profile
  }

  /** The preference resolved in order: a numeric salaryPreference in the body; failing a
      truthy one, the mean of both bounds or the single bound; and the profile value
      whenever the body yields no number. */
  lemma PreferenceOrder(b: map<string, Json>, toNumber: Json -> JsNumber, profile: Option<real>)
    requires IsToNumber(toNumber)
    ensures var pref := ResolvePreference(RequestPreference(Some(b), toNumber), profile);
      && (forall x :: Field(b, "salaryPreference") == Some(JNum(x)) && x != 0.0 ==> pref == Some(x))
      && (Defined(Field(b, "salaryPreference")) && !Field(b, "salaryPreference").value.JNum? ==> pref == profile)
      && (forall lo, hi ::
            (!Defined(Field(b, "salaryPreference")) && Field(b, "salaryMin") == Some(JNum(lo))
             && Field(b, "salaryMax") == Some(JNum(hi)) && lo != 0.0 && hi != 0.0)
            ==> pref == Some((lo + hi) / 2.0))
      && (forall lo ::
            (!Defined(Field(b, "salaryPreference")) && Field(b, "salaryMin") == Some(JNum(lo))
             && lo != 0.0 && !Defined(Field(b, "salaryMax")))
            ==> pref == Some(lo))
      && ((!Defined(Field(b, "salaryPreference")) && !Defined(Field(b, "salaryMin")) && !Defined(Field(b, "salaryMax")))
            ==> pref == profile)
  {
    if !Defined(Field(b, "salaryPreference")) {
      PreferenceFromBounds(b, toNumber, profile);
    }
  }

  /** Without a truthy salaryPreference, the bounds decide. */
  lemma PreferenceFromBounds(b: map<string, Json>, toNumber: Json -> JsNumber, profile: Option<real>)
    requires IsToNumber(toNumber) && !Defined(Field(b, "salaryPreference"))
    ensures var pref := ResolvePreference(RequestPreference(Some(b), toNumber), profile);
      && (forall lo, hi ::
            (Field(b, "salaryMin") == Some(JNum(lo)) && Field(b, "salaryMax") == Some(JNum(hi))
             && lo != 0.0 && hi != 0.0)
            ==> pref == Some((lo + hi) / 2.0))
      && (forall lo ::
            (Field(b, "salaryMin") == Some(JNum(lo)) && lo != 0.0 && !Defined(Field(b, "salaryMax")))
            ==> pref == Some(lo))
      && (!Defined(Field(b, "salaryMin")) && !Defined(Field(b, "salaryMax")) ==> pref == profile)
  {
  }

  /** Without a body the profile value is used. */
  lemma PreferenceWithoutBody(toNumber: Json -> JsNumber, profile: Option<real>)
    ensures ResolvePreference(RequestPreference(None, toNumber), profile) == profile
  {
  }

  /** `salScore`: neutral 0.5 unless the preference and the job's minimum are both truthy;
      then 1 inside [min, max], else one minus the distance to the nearer bound relative
      to the preference (at least 1), clamped to [0,1]. A missing or zero maximum counts
      as the preference itself. */
  function SalaryScore(pref: Option<real>, min: Option<real>, max: Option<real>): real {
    if pref.Some? && pref.value != 0.0 && min.Some? && min.value != 0.0 then
      var p, lo := pref.value, min.value;
      var s := if max.Some? && p <= max.value && p >= lo then 1.0
        else
          var hi := if max.Some? && max.value != 0.0 then max.value else p;
          1.0 - RMin(Abs(p - lo), Abs(p - hi)) / RMax(1.0, p);
      RMax(0.0, RMin(1.0, s))
    else 0.5
  }

  /** The salary score lies in [0,1]; it is 0.5 without a truthy preference or minimum and 1
      when the preference is inside the range; a job with no maximum scores 1 for every
      truthy preference, even one far below the minimum. */
  lemma SalaryScoreSpec(pref: Option<real>, min: Option<real>, max: Option<real>)
    ensures 0.0 <= SalaryScore(pref, min, max) <= 1.0
    ensures pref.None? || pref.value == 0.0 || min.None? || min.value == 0.0 ==> SalaryScore(pref, min, max) == 0.5
    ensures (pref.Some? && pref.value != 0.0 && min.Some? && min.value != 0.0 && max.Some?
             && min.value <= pref.value <= max.value) ==> SalaryScore(pref, min, max) == 1.0
    ensures pref.Some? && pref.value != 0.0 && min.Some? && min.value != 0.0 && (max.None? || max.value == 0.0)
      ==> SalaryScore(pref, min, max) == 1.0
  {
  }

  /** Outside a complete range, a preference of at least 1 loses its relative distance to
      the nearer bound. */
  lemma SalaryScoreOutside(p: real, lo: real, hi: real)
    requires p >= 1.0 && lo != 0.0 && hi != 0.0 && !(lo <= p <= hi)
    ensures SalaryScore(Some(p), Some(lo), Some(hi)) == RMax(0.0, 1.0 - RMin(Abs(p - lo), Abs(p - hi)) / p)
  {
  }

  // ---------------------------------------------------------------- weighted sum

  /** `components` of a result. */
  datatype Components = Components(skills: real, tfidf: real, exp: real, loc: real, sal: real)

  predicate InUnit(c: Components) {
    && 0.0 <= c.skills <= 1.0 && 0.0 <= c.tfidf <= 1.0 && 0.0 <= c.exp <= 1.0
    && 0.0 <= c.loc <= 1.0 && 0.0 <= c.sal <= 1.0
  }

  /** `finalScore` with the weights 0.45, 0.20, 0.20, 0.10 and 0.05. */
  function FinalScore(c: Components): real {
    0.45 * c.skills + 0.20 * c.tfidf + 0.20 * c.exp + 0.10 * c.loc + 0.05 * c.sal
  }

  /** The weights sum to 1, so components in [0,1] give a score in [0,1]. */
  lemma FinalScoreInUnit(c: Components)
    requires InUnit(c)
    ensures 0.0 <= FinalScore(c) <= 1.0
  {
  }

  /** The weights sum to 1: equal components give that value. */
  lemma FinalScoreConstant(x: real)
    ensures FinalScore(Components(x, x, x, x, x)) == x
  {
  }

  /** Raising any component never lowers the score. */
  lemma FinalScoreMonotone(c: Components, d: Components)
    requires d.skills >= c.skills && d.tfidf >= c.tfidf && d.exp >= c.exp && d.loc >= c.loc && d.sal >= c.sal
    ensures FinalScore(d) >= FinalScore(c)
  {
  }
}

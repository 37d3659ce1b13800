/** The scheme browser in frontend/src/pages/Schemes.jsx: the eligibility test
    (`filterEligible`), the search, tab and category predicates of `filtered`, the list of
    category buttons and `prettyCategory`. Missing text fields are "". */
module Schemes {
  import opened Text
  import opened Outcomes

  /** `scheme.state`: its code and name. */
  datatype StateRef = StateRef(code: string, name: string)

  /** A scheme as the page holds it: categories default to [] and the short description to
      the full description or "" when fetched. `scope` is `None` when undefined. */
  datatype SchemeView = SchemeView(
    name: string,
    shortDescription: string,
    fullDescription: string,
    eligibilityText: string,
    scope: Option<string>,
    state: Option<StateRef>,
    categories: seq<string>)

  /** The page's filter state: tab, income band, state query, search box and category. */
  datatype Filters = Filters(tab: string, income: string, stateCode: string, searchQuery: string, category: string)

  /** The alternatives of `/bpl|below poverty|below-poverty|below poverty line/`. */
  const BplPhrases: seq<string> := ["bpl", "below poverty", "below-poverty", "below poverty line"]
  /** The alternatives of `/apl|above poverty|above-poverty|above poverty line/`. */
  const AplPhrases: seq<string> := ["apl", "above poverty", "above-poverty", "above poverty line"]

  /** `regex.test(text)` for a regex that is a plain alternation of phrases. */
  predicate MentionsAny(text: string, phrases: seq<string>) {
    exists i :: 0 <= i < |phrases| && Contains(text, phrases[i])
  }

  /** `(eligibility_text || full_description || short_description || '').toLowerCase()`. */
  function IncomeText(s: SchemeView): string {
    Lower(if s.eligibilityText != "" then s.eligibilityText
          else if s.fullDescription != "" then s.fullDescription
          else s.shortDescription)
  }

  /** The state test for the trimmed, lowercased query `q`: central or unscoped schemes,
      a state name containing `q`, or a state code equal to `q`. */
  predicate StateMatches(s: SchemeView, q: string) {
    var stateName := if s.state.Some? then Lower(s.state.value.name) else "";
    var stateCode := if s.state.Some? then Lower(s.state.value.code) else "";
    var isCentral := s.scope == Some("central") || s.scope.None?;
    isCentral || Contains(stateName, q) || stateCode == q
  }

  /** `filterEligible(s)`. */
  predicate FilterEligible(s: SchemeView, stateCode: string, income: string) {
    if stateCode != "" && !StateMatches(s, Lower(Trim(stateCode))) then false
    else if income == "all" then true
    else if income == "bpl" then MentionsAny(IncomeText(s), BplPhrases)
    else if income == "apl" then MentionsAny(IncomeText(s), AplPhrases)
    else false
  }

  /** `matchesSearch`: a blank query matches; otherwise the name or the short description
      contains the lowercased, untrimmed query. */
  predicate MatchesSearch(s: SchemeView, query: string) {
    || Trim(query) == ""
    || (s.name != "" && Contains(Lower(s.name), Lower(query)))
    || (s.shortDescription != "" && Contains(Lower(s.shortDescription), Lower(query)))
  }

  /** `matchesCategory`. */
  predicate MatchesCategory(s: SchemeView, category: string) {
    category == "" || category in s.categories
  }

  /** The predicate given to `schemes.filter`. */
  predicate Matches(s: SchemeView, f: Filters) {
    && (f.tab == "all" || FilterEligible(s, f.stateCode, f.income))
    && MatchesSearch(s, f.searchQuery)
    && MatchesCategory(s, f.category)
  }

  /** `filtered`. */
  function Filtered(schemes: seq<SchemeView>, f: Filters): seq<SchemeView> {
    if schemes == [] then []
    else (if Matches(schemes[0], f) then [schemes[0]] else []) + Filtered(schemes[1..], f)
  }

  /** The filtered list holds exactly the matching schemes and is no longer than the list. */
  lemma {:induction false} FilteredSpec(schemes: seq<SchemeView>, f: Filters)
    ensures forall s :: s in Filtered(schemes, f) <==> s in schemes && Matches(s, f)
    ensures |Filtered(schemes, f)| <= |schemes|
  {
    if schemes != [] {
      FilteredSpec(schemes[1..], f);
      assert forall s :: s in schemes <==> s == schemes[0] || s in schemes[1..];
    }
  }

  /** Filtering keeps the original order: it distributes over concatenation. */
  lemma {:induction false} FilteredAppend(a: seq<SchemeView>, b: seq<SchemeView>, f: Filters)
    ensures Filtered(a + b, f) == Filtered(a, f) + Filtered(b, f)
  {
    if a != [] {
      FilteredAppend(a[1..], b, f);
      assert (a + b)[1..] == a[1..] + b;
    } else {
      assert a + b == b;
    }
  }

  /** With no tab, search or category restriction every scheme is shown, in order. */
  lemma {:induction false} NoFilterShowsAll(schemes: seq<SchemeView>, f: Filters)
    requires f.tab == "all" && Trim(f.searchQuery) == "" && f.category == ""
    ensures Filtered(schemes, f) == schemes
  {
    if schemes != [] {
      NoFilterShowsAll(schemes[1..], f);
    }
  }

  /** On the 'all' tab the eligibility test is not consulted. */
  lemma AllTabIgnoresEligibility(s: SchemeView, f: Filters)
    requires f.tab == "all"
    ensures Matches(s, f) <==> MatchesSearch(s, f.searchQuery) && MatchesCategory(s, f.category)
  {
  }

  /** With a state query, a scheme passes the state test exactly when it is central or
      unscoped, its state name contains the query or its state code equals it; with the
      income band 'all' that is the whole eligibility test. */
  lemma StateFilter(s: SchemeView, stateCode: string)
    requires stateCode != ""
    ensures var q := Lower(Trim(stateCode));
      FilterEligible(s, stateCode, "all") <==>
        || s.scope == Some("central") || s.scope.None?
        || (s.state.Some? && Contains(Lower(s.state.value.name), q))
        || (s.state.Some? && Lower(s.state.value.code) == q)
        || (s.state.None? && q == "")
  {
  }

  /** A state query of white space only trims to "", which every state name contains: it
      filters nothing out. */
  lemma BlankStateQueryKeepsAll(s: SchemeView, stateCode: string)
    requires stateCode != "" && Trim(stateCode) == ""
    ensures FilterEligible(s, stateCode, "all")
  {
    assert Lower("") == "";
    var stateName := if s.state.Some? then Lower(s.state.value.name) else "";
    assert OccursAt(stateName, "", 0);
  }

  /** An income band other than 'all', 'bpl' or 'apl' rejects every scheme, and 'bpl' and
      'apl' accept exactly the schemes whose text mentions the band. */
  lemma IncomeBands(s: SchemeView, stateCode: string, income: string)
    requires stateCode == "" || StateMatches(s, Lower(Trim(stateCode)))
    ensures income != "all" && income != "bpl" && income != "apl" ==> !FilterEligible(s, stateCode, income)
    ensures FilterEligible(s, stateCode, "bpl") <==> MentionsAny(IncomeText(s), BplPhrases)
    ensures FilterEligible(s, stateCode, "apl") <==> MentionsAny(IncomeText(s), AplPhrases)
  {
  }

  /** The income text is the first non-empty of the three descriptions: a scheme whose
      eligibility text mentions "BPL" is accepted whatever its other descriptions say. */
  lemma BplExample(s: SchemeView)
    requires s.eligibilityText == "BPL families"
    ensures FilterEligible(s, "", "bpl")
  {
    assert IncomeText(s) == "bpl families";
    assert OccursAt(IncomeText(s), BplPhrases[0], 0);
  }

  /** A blank search matches every scheme. */
  lemma BlankSearchMatches(s: SchemeView, query: string)
    requires Trim(query) == ""
    ensures MatchesSearch(s, query)
  {
  }

  // ---------------------------------------------------------------- category buttons

  const PreferredCategories: seq<string> := [
    "health", "employment", "pension", "finance", "skill", "housing", "welfare",
    "education", "agriculture", "food_security", "social_security", "enterprise", "innovation"]

  /** `[...new Set(xs)]`: the first occurrence of each value, in order. */
  function Dedup(xs: seq<string>): seq<string> {
    if xs == [] then []
    else
      var d := Dedup(xs[..|xs| - 1]);
      if xs[|xs| - 1] in d then d else d + [xs[|xs| - 1]]
  }

  predicate Distinct(xs: seq<string>) {
    forall i, j :: 0 <= i < j < |xs| ==> xs[i] != xs[j]
  }

  /** `schemes.flatMap(s => s.categories || [])`. */
  function AllCategories(schemes: seq<SchemeView>): seq<string> {
    if schemes == [] then [] else AllCategories(schemes[..|schemes| - 1]) + schemes[|schemes| - 1].categories
  }

  /** The category buttons: preferred categories, then derived ones, without repeats, at
      most 14. */
  function CategoryButtons(schemes: seq<SchemeView>): seq<string> {
    var derived := Dedup(AllCategories(schemes));
    var merged := Dedup(PreferredCategories + derived);
    if |merged| <= 14 then merged else merged[..14]
  }

  /** Deduplication keeps every value once and nothing else. */
  lemma {:induction false} DedupSpec(xs: seq<string>)
    ensures Distinct(Dedup(xs))
    ensures forall x :: x in Dedup(xs) <==> x in xs
    ensures |Dedup(xs)| <= |xs|
  {
    if xs != [] {
      var init := xs[..|xs| - 1];
      DedupSpec(init);
      assert xs == init + [xs[|xs| - 1]];
    }
  }

  /** Deduplicating a longer list only appends: the deduplicated prefix comes first. */
  lemma {:induction false} DedupPrefix(a: seq<string>, b: seq<string>)
    ensures |Dedup(a)| <= |Dedup(a + b)|
    ensures Dedup(a + b)[..|Dedup(a)|] == Dedup(a)
    decreases |b|
  {
    if b == [] {
      assert a + b == a;
    } else {
      var b' := b[..|b| - 1];
      DedupPrefix(a, b');
      assert (a + b)[..|a + b| - 1] == a + b';
    }
  }

  /** A list without repeats is its own deduplication. */
  lemma {:induction false} DedupDistinct(xs: seq<string>)
    requires Distinct(xs)
    ensures Dedup(xs) == xs
  {
    if xs != [] {
      var init := xs[..|xs| - 1];
      DedupDistinct(init);
      DedupSpec(init);
      assert xs == init + [xs[|xs| - 1]];
    }
  }

  lemma PreferredDistinct()
    ensures Distinct(PreferredCategories)
  {
  }

  /** The buttons are at most 14 distinct categories, the thirteen preferred ones first in
      their order; every button is preferred or used by some scheme. */
  lemma CategoryButtonsSpec(schemes: seq<SchemeView>)
    ensures var buttons := CategoryButtons(schemes);
      && |buttons| <= 14
      && Distinct(buttons)
      && |buttons| >= 13 && buttons[..13] == PreferredCategories
      && (forall c :: c in buttons ==> c in PreferredCategories || c in AllCategories(schemes))
  {
    var derived := Dedup(AllCategories(schemes));
    var merged := Dedup(PreferredCategories + derived);
    PreferredDistinct();
    DedupDistinct(PreferredCategories);
    DedupPrefix(PreferredCategories, derived);
    DedupSpec(PreferredCategories + derived);
    DedupSpec(AllCategories(schemes));
    var buttons := CategoryButtons(schemes);
    assert forall c :: c in buttons ==> c in merged;
  }

  // ---------------------------------------------------------------- labels

  /** `\w`: ASCII letters, digits and the underscore. */
  predicate IsWordChar(c: char) {
    IsUpperAscii(c) || IsLowerAscii(c) || IsDigit(c) || c == '_'
  }

  /** `replace(/_/g, ' ')`. */
  function Underscores(s: string): (r: string)
    ensures |r| == |s|
  {
    seq(|s|, i requires 0 <= i < |s| => if s[i] == '_' then ' ' else s[i])
  }

  /** `replace(/\b\w/g, m => m.toUpperCase())`: a word character not preceded by one is
      uppercased. */
  function CapitalizeWords(s: string): (r: string)
    ensures |r| == |s|
  {
    seq(|s|, i requires 0 <= i < |s| =>
      if IsWordChar(s[i]) && (i == 0 || !IsWordChar(s[i - 1])) then UpperChar(s[i]) else s[i])
  }

  /** `prettyCategory(c)`. */
  function PrettyCategory(c: string): string {
    if c == "" then "" else CapitalizeWords(Underscores(c))
  }

  /** A word starts at `i` of the category once underscores count as spaces. */
  predicate WordStart(c: string, i: nat)
    requires i < |c|
  {
    c[i] != '_' && IsWordChar(c[i]) && (i == 0 || c[i - 1] == '_' || !IsWordChar(c[i - 1]))
  }

  /** Character `i` of the label: a space for an underscore, the uppercased letter where a
      word starts, the category's own character elsewhere; never an underscore. */
  lemma PrettyCategoryAt(c: string, i: nat)
    requires i < |c|
    ensures |PrettyCategory(c)| == |c|
    ensures PrettyCategory(c)[i] ==
      if c[i] == '_' then ' ' else if WordStart(c, i) then UpperChar(c[i]) else c[i]
    ensures PrettyCategory(c)[i] != '_'
  {
    var u := Underscores(c);
    assert u[i] == if c[i] == '_' then ' ' else c[i];
    assert i > 0 ==> u[i - 1] == if c[i - 1] == '_' then ' ' else c[i - 1];
  }

  /** The label has the category's length and no underscore. */
  lemma PrettyCategorySpec(c: string)
    ensures |PrettyCategory(c)| == |c|
    ensures forall i :: 0 <= i < |c| ==> PrettyCategory(c)[i] != '_'
  {
    forall i | 0 <= i < |c| ensures PrettyCategory(c)[i] != '_' {
      PrettyCategoryAt(c, i);
    }
  }

  /** Prettifying a label again changes nothing. */
  lemma PrettyCategoryIdempotent(c: string)
    ensures PrettyCategory(PrettyCategory(c)) == PrettyCategory(c)
  {
    if c != "" {
      var p := PrettyCategory(c);
      PrettyCategorySpec(c);
      forall i | 0 <= i < |p| ensures PrettyCategory(p)[i] == p[i] {
        PrettyAgainAt(c, i);
      }
    }
  }

  /** Character `i` survives a second prettifying: it is no underscore, and a word starts
      there in the label exactly when one starts there in the category's spaced form. */
  lemma PrettyAgainAt(c: string, i: nat)
    requires c != "" && i < |c|
    ensures |PrettyCategory(PrettyCategory(c))| == |c|
    ensures PrettyCategory(PrettyCategory(c))[i] == PrettyCategory(c)[i]
  {
    var u := Underscores(c);
    var p := CapitalizeWords(u);
    assert p == PrettyCategory(c);
    PrettyCategoryAt(c, i);
    assert IsWordChar(p[i]) == IsWordChar(u[i]);
    assert Underscores(p)[i] == p[i];
    if i > 0 {
      PrettyCategoryAt(c, i - 1);
      assert IsWordChar(p[i - 1]) == IsWordChar(u[i - 1]);
      assert Underscores(p)[i - 1] == p[i - 1];
    }
  }

  /** "food_security" is shown as "Food Security". */
  lemma PrettyCategoryExample()
    ensures PrettyCategory("food_security") == "Food Security"
  {
    assert Underscores("food_security") == "food security";
  }
}

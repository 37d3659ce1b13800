/** Cosine similarity between two TF-IDF documents (`cosineTfidf` in
    backend/controllers/jobRecommendation.js). The term lists are what the TF-IDF
    library's `listTerms` yields for a document: one entry per distinct term, with a
    non-negative weight. `Math.sqrt` is a parameter that must return the non-negative
    square root. The maps `mapA` and `mapB` are plain objects `{}`, so reading a term they
    lack finds whatever `Object.prototype` provides under that name. */
module Cosine {
  import opened JsValues

  datatype Term = Term(term: string, tfidf: real)

  /** What `listTerms` guarantees: weights are non-negative and terms are distinct. */
  predicate WellFormedTerms(ts: seq<Term>) {
    && (forall i :: 0 <= i < |ts| ==> ts[i].tfidf >= 0.0)
    && (forall i, j :: 0 <= i < j < |ts| ==> ts[i].term != ts[j].term)
  }

  /** `sqrt` is the non-negative square root on the non-negative reals. */
  ghost predicate IsSqrt(sqrt: real -> real) {
    forall x :: 0.0 <= x ==> 0.0 <= sqrt(x) && sqrt(x) * sqrt(x) == x
  }

  /** The sum of squared weights (`sqA`, `sqB`). */
  function SumSq(ts: seq<Term>): (r: real)
    ensures r >= 0.0
  {
    if ts == [] then 0.0 else SumSq(ts[..|ts| - 1]) + ts[|ts| - 1].tfidf * ts[|ts| - 1].tfidf
  }

  /** The term-to-weight map filled by `forEach` (`mapA`, `mapB`): later entries win. */
  function WeightMap(ts: seq<Term>): map<string, real> {
    if ts == [] then map[] else WeightMap(ts[..|ts| - 1])[ts[|ts| - 1].term := ts[|ts| - 1].tfidf]
  }

  /** The dot product accumulated over the terms of the first document whose weight
      in the second map is truthy (present and non-zero), reading only the second
      document's own terms. */
  function Dot(ts: seq<Term>, mb: map<string, real>): real {
    if ts == [] then 0.0
    else
      var t := ts[|ts| - 1];
      Dot(ts[..|ts| - 1], mb) + (if t.term in mb && mb[t.term] != 0.0 then t.tfidf * mb[t.term] else 0.0)
  }

  /** The function-valued properties every plain object inherits from `Object.prototype`. */
  const InheritedNames: set<string> :=
    {"constructor", "hasOwnProperty", "isPrototypeOf", "propertyIsEnumerable", "toLocaleString",
     "toString", "valueOf", "__defineGetter__", "__defineSetter__", "__lookupGetter__",
     "__lookupSetter__"}

  /** What `mapB[term]` reads: the weight stored under the term, an inherited function, or
      `undefined`. */
  datatype Read = Own(w: real) | InheritedFunction | Undefined

  function Lookup(mb: map<string, real>, t: string): Read {
    if t in mb then Own(mb[t]) else if t in InheritedNames then InheritedFunction else Undefined
  }

  /** The `dot` of `cosineTfidf` as written: a truthy `mapB[term]` is multiplied in, and a
      number times an inherited function is NaN. */
  function DotAsWritten(ts: seq<Term>, mb: map<string, real>): JsNumber {
    if ts == [] then Num(0.0)
    else
      var d, t := DotAsWritten(ts[..|ts| - 1], mb), ts[|ts| - 1];
      match Lookup(mb, t.term)
      case Own(w) => if w != 0.0 then Add(d, Num(t.tfidf * w)) else d
      case InheritedFunction => Add(d, NaN)
      case Undefined => d
  }

  /** Some term of the first document is missing from the second map and names an
      inherited function. */
  predicate MissesInherited(ts: seq<Term>, mb: map<string, real>) {
    exists i :: 0 <= i < |ts| && ts[i].term !in mb && ts[i].term in InheritedNames
  }

  /** The dot as written is NaN exactly when a term of the first document reads an inherited
      function, and otherwise the dot product over the shared terms. */
  lemma {:induction false} DotAsWrittenSpec(ts: seq<Term>, mb: map<string, real>)
    ensures DotAsWritten(ts, mb) == if MissesInherited(ts, mb) then NaN else Num(Dot(ts, mb))
  {
    if ts != [] {
      DotAsWrittenSpec(ts[..|ts| - 1], mb);
      MissesInheritedLast(ts, mb);
    }
  }

  lemma MissesInheritedLast(ts: seq<Term>, mb: map<string, real>)
    requires ts != []
    ensures var t := ts[|ts| - 1];
      MissesInherited(ts, mb) <==>
        MissesInherited(ts[..|ts| - 1], mb) || (t.term !in mb && t.term in InheritedNames)
  {
    var init := ts[..|ts| - 1];
    if MissesInherited(ts, mb) {
      var i :| 0 <= i < |ts| && ts[i].term !in mb && ts[i].term in InheritedNames;
      if i < |init| {
        assert init[i] == ts[i];
      }
    }
    if MissesInherited(init, mb) {
      var i :| 0 <= i < |init| && init[i].term !in mb && init[i].term in InheritedNames;
      assert ts[i] == init[i];
    }
  }

  /** The value `cosineTfidf` returns. */
  function CosineSpec(a: seq<Term>, b: seq<Term>, sqrt: real -> real): real
    requires IsSqrt(sqrt)
  {
    var sa, sb := SumSq(a), SumSq(b);
    if sa == 0.0 || sb == 0.0 then 0.0
    else
      SqrtPositive(sqrt, sa);
      SqrtPositive(sqrt, sb);
      Dot(a, WeightMap(b)) / (sqrt(sa) * sqrt(sb))
  }

  /** The value `cosineTfidf` returns as written: 0 for a zero norm, else the dot as
      written over the product of the norms, NaN when the dot is. */
  function CosineAsWritten(a: seq<Term>, b: seq<Term>, sqrt: real -> real): JsNumber
    requires IsSqrt(sqrt)
  {
    var sa, sb := SumSq(a), SumSq(b);
    if sa == 0.0 || sb == 0.0 then Num(0.0)
    else
      SqrtProduct(sqrt, sa, sb);
      DivBy(DotAsWritten(a, WeightMap(b)), sqrt(sa) * sqrt(sb))
  }

  /** The cosine as written is NaN exactly when both norms are non-zero and a term of the
      first document reads an inherited function from the second map; otherwise it is the
      cosine over the shared terms, in [0,1]. */
  lemma CosineAsWrittenSpec(a: seq<Term>, b: seq<Term>, sqrt: real -> real)
    requires WellFormedTerms(a) && WellFormedTerms(b) && IsSqrt(sqrt)
    ensures CosineAsWritten(a, b, sqrt).NaN? <==>
      SumSq(a) != 0.0 && SumSq(b) != 0.0 && MissesInherited(a, WeightMap(b))
    ensures CosineAsWritten(a, b, sqrt).Num? ==>
      CosineAsWritten(a, b, sqrt).value == CosineSpec(a, b, sqrt) &&
      0.0 <= CosineAsWritten(a, b, sqrt).value <= 1.0
  {
    DotAsWrittenSpec(a, WeightMap(b));
    CosineBounds(a, b, sqrt);
  }

  /** `cosineTfidf(..) || 0`: the cosine over the shared terms, except 0 when a term of the
      first document reads an inherited function; always in [0,1]. */
  lemma CosineOrZero(a: seq<Term>, b: seq<Term>, sqrt: real -> real)
    requires WellFormedTerms(a) && WellFormedTerms(b) && IsSqrt(sqrt)
    ensures OrZero(CosineAsWritten(a, b, sqrt)) ==
      if MissesInherited(a, WeightMap(b)) then 0.0 else CosineSpec(a, b, sqrt)
    ensures 0.0 <= OrZero(CosineAsWritten(a, b, sqrt)) <= 1.0
  {
    CosineAsWrittenSpec(a, b, sqrt);
    CosineBounds(a, b, sqrt);
  }

  /** A job text with the word "constructor" that the worker's text lacks: the cosine as
      written is NaN, so `|| 0` scores the pair 0, while the shared term "build" gives the
      cosine over own terms a positive value. */
  lemma ConstructorTermZeroes(sqrt: real -> real)
    requires IsSqrt(sqrt)
    ensures var a, b := [Term("constructor", 1.0), Term("build", 1.0)], [Term("build", 1.0)];
      && CosineAsWritten(a, b, sqrt) == NaN
      && OrZero(CosineAsWritten(a, b, sqrt)) == 0.0
      && CosineSpec(a, b, sqrt) > 0.0
  {
    var a, b := [Term("constructor", 1.0), Term("build", 1.0)], [Term("build", 1.0)];
    assert a[..1] == [Term("constructor", 1.0)] && a[..1][..0] == [];
    assert b[..0] == [];
    assert WeightMap(b) == map["build" := 1.0];
    assert Dot(a[..1], WeightMap(b)) == 0.0;
    assert Dot(a, WeightMap(b)) == 1.0;
    assert DotAsWritten(a[..1], WeightMap(b)) == NaN;
    SqrtProduct(sqrt, SumSq(a), SumSq(b));
  }

  lemma SqrtPositive(sqrt: real -> real, x: real)
    requires IsSqrt(sqrt) && x > 0.0
    ensures sqrt(x) > 0.0
  {
    assert sqrt(x) * sqrt(x) == x;
  }

  /** The set of listed terms. */
  function TermSet(ts: seq<Term>): set<string> {
    set i | 0 <= i < |ts| :: ts[i].term
  }

  /** The keys of the weight map are the listed terms. */
  lemma {:induction false} WeightMapKeys(ts: seq<Term>)
    ensures WeightMap(ts).Keys == TermSet(ts)
  {
    if ts != [] {
      var u := ts[..|ts| - 1];
      WeightMapKeys(u);
      assert TermSet(ts) == TermSet(u) + {ts[|ts| - 1].term} by {
        forall t | t in TermSet(ts) ensures t in TermSet(u) + {ts[|ts| - 1].term} {
          var i :| 0 <= i < |ts| && ts[i].term == t;
          if i < |ts| - 1 {
            assert u[i].term == t;
          }
        }
        forall t | t in TermSet(u) ensures t in TermSet(ts) {
          var i :| 0 <= i < |u| && u[i].term == t;
          assert ts[i].term == t;
        }
      }
    }
  }

  /** With distinct terms, the map gives each listed term its listed weight. */
  lemma {:induction false} WeightMapAt(ts: seq<Term>, i: nat)
    requires WellFormedTerms(ts) && i < |ts|
    ensures ts[i].term in WeightMap(ts) && WeightMap(ts)[ts[i].term] == ts[i].tfidf
  {
    if i < |ts| - 1 {
      WeightMapAt(ts[..|ts| - 1], i);
    }
  }

  /** The map's values are weights of the list, hence non-negative. */
  lemma {:induction false} WeightMapNonNegative(ts: seq<Term>)
    requires WellFormedTerms(ts)
    ensures forall t :: t in WeightMap(ts) ==> WeightMap(ts)[t] >= 0.0
  {
    if ts != [] {
      WeightMapNonNegative(ts[..|ts| - 1]);
    }
  }

  /** One `forEach` of `cosineTfidf`: fills the term map and sums the squared weights. */
  method MapAndSquares(terms: seq<Term>) returns (m: map<string, real>, sq: real)
    ensures m == WeightMap(terms) && sq == SumSq(terms)
  {
    m, sq := map[], 0.0;
    var i := 0;
    while i < |terms|
      invariant 0 <= i <= |terms|
      invariant m == WeightMap(terms[..i]) && sq == SumSq(terms[..i])
    {
      assert terms[..i + 1][..i] == terms[..i];
      m := m[terms[i].term := terms[i].tfidf];
      sq := sq + terms[i].tfidf * terms[i].tfidf;
      i := i + 1;
    }
    assert terms[..i] == terms;
  }

  /** `cosineTfidf`: the loops of the source, proved to compute `CosineAsWritten`. */
  method CosineTfidf(termsA: seq<Term>, termsB: seq<Term>, sqrt: real -> real) returns (r: JsNumber)
    requires WellFormedTerms(termsA) && WellFormedTerms(termsB) && IsSqrt(sqrt)
    ensures r == CosineAsWritten(termsA, termsB, sqrt)
    ensures r.NaN? <==>
      SumSq(termsA) != 0.0 && SumSq(termsB) != 0.0 && MissesInherited(termsA, WeightMap(termsB))
    ensures r.Num? ==> r.value == CosineSpec(termsA, termsB, sqrt) && 0.0 <= r.value <= 1.0
  {
    var mapA, sqA := MapAndSquares(termsA);
    var mapB, sqB := MapAndSquares(termsB);
    if sqA == 0.0 || sqB == 0.0 {
      r := Num(0.0);
    } else {
      var dot := DotProduct(termsA, mapA, mapB);
      SqrtProduct(sqrt, sqA, sqB);
      r := DivBy(dot, sqrt(sqA) * sqrt(sqB));
    }
    CosineAsWrittenSpec(termsA, termsB, sqrt);
  }

  /** The `for (const term in mapA)` loop of `cosineTfidf`. The keys of `mapA` are the terms
      of `termsA`; the loop visits them in a different order (integer-like keys first), which
      does not change the sum, nor whether it is NaN. */
  method DotProduct(termsA: seq<Term>, mapA: map<string, real>, mapB: map<string, real>) returns (dot: JsNumber)
    requires WellFormedTerms(termsA) && mapA == WeightMap(termsA)
    ensures dot == DotAsWritten(termsA, mapB)
    ensures dot.NaN? <==> MissesInherited(termsA, mapB)
    ensures dot.Num? ==> dot.value == Dot(termsA, mapB)
  {
    dot := Num(0.0);
    var i := 0;
    while i < |termsA|
      invariant 0 <= i <= |termsA|
      invariant dot == DotAsWritten(termsA[..i], mapB)
    {
      var term := termsA[i].term;
      WeightMapAt(termsA, i);
      assert termsA[..i + 1][..i] == termsA[..i];
      if term in mapB {
        if mapB[term] != 0.0 {
          dot := Add(dot, Num(mapA[term] * mapB[term]));
        }
      } else if term in InheritedNames {
        dot := Add(dot, NaN);
      }
      i := i + 1;
    }
    assert termsA[..i] == termsA;
    DotAsWrittenSpec(termsA, mapB);
  }

  // ---- Cauchy-Schwarz, for the upper bound ----

  /** The weight the second document gives a term, 0 when it has none. */
  function Proj(mb: map<string, real>, t: string): real {
    if t in mb then mb[t] else 0.0
  }

  /** The squared weights, in the second document, of the first document's terms. */
  function SqProj(ts: seq<Term>, mb: map<string, real>): real {
    if ts == [] then 0.0
    else
      var p := Proj(mb, ts[|ts| - 1].term);
      SqProj(ts[..|ts| - 1], mb) + p * p
  }

  /** How often a term is listed. */
  function Count(ts: seq<Term>, t: string): nat {
    if ts == [] then 0 else Count(ts[..|ts| - 1], t) + (if ts[|ts| - 1].term == t then 1 else 0)
  }

  lemma {:induction false} CountDistinct(ts: seq<Term>, t: string)
    requires WellFormedTerms(ts)
    ensures Count(ts, t) <= 1
  {
    if ts != [] {
      var u := ts[..|ts| - 1];
      CountDistinct(u, t);
      if ts[|ts| - 1].term == t {
        CountAbsent(u, t);
      }
    }
  }

  lemma {:induction false} CountAbsent(ts: seq<Term>, t: string)
    requires forall i :: 0 <= i < |ts| ==> ts[i].term != t
    ensures Count(ts, t) == 0
  {
    if ts != [] {
      CountAbsent(ts[..|ts| - 1], t);
    }
  }

  /** `c` copies of `x` added up. */
  function Repeat(c: nat, x: real): real {
    if c == 0 then 0.0 else Repeat(c - 1, x) + x
  }

  /** Adding a fresh key to the second map adds its squared weight once per listing. */
  lemma {:induction false} SqProjUpdate(ts: seq<Term>, mb: map<string, real>, t: string, w: real)
    requires t !in mb
    ensures SqProj(ts, mb[t := w]) == SqProj(ts, mb) + Repeat(Count(ts, t), w * w)
  {
    if ts != [] {
      var init, x := ts[..|ts| - 1], ts[|ts| - 1].term;
      SqProjUpdate(init, mb, t, w);
      if x == t {
        assert Proj(mb[t := w], x) == w && Proj(mb, x) == 0.0;
        assert Count(ts, t) == Count(init, t) + 1;
      } else {
        assert Proj(mb[t := w], x) == Proj(mb, x);
      }
    }
  }

  /** The second document's weights on the first document's (distinct) terms square-sum
      to at most its whole squared norm. */
  lemma {:induction false} SqProjBound(a: seq<Term>, b: seq<Term>)
    requires WellFormedTerms(a) && WellFormedTerms(b)
    ensures SqProj(a, WeightMap(b)) <= SumSq(b)
  {
    if b == [] {
      SqProjEmpty(a);
    } else {
      WellFormedInit(b);
      SqProjBound(a, b[..|b| - 1]);
      LastTermFresh(b);
      SqProjAddFresh(a, WeightMap(b[..|b| - 1]), b[|b| - 1].term, b[|b| - 1].tfidf);
    }
  }

  /** Giving a fresh key a weight adds at most its squared weight, the first document's
      terms being distinct. */
  lemma SqProjAddFresh(a: seq<Term>, mb: map<string, real>, t: string, w: real)
    requires WellFormedTerms(a) && t !in mb
    ensures SqProj(a, mb[t := w]) <= SqProj(a, mb) + w * w
  {
    SqProjUpdate(a, mb, t, w);
    CountDistinct(a, t);
    RepeatAtMostOnce(Count(a, t), w);
  }

  /** With distinct terms, the last term is not a key of the earlier terms' map. */
  lemma LastTermFresh(ts: seq<Term>)
    requires WellFormedTerms(ts) && ts != []
    ensures ts[|ts| - 1].term !in WeightMap(ts[..|ts| - 1])
  {
    var init := ts[..|ts| - 1];
    WeightMapKeys(init);
    forall i | 0 <= i < |init| ensures init[i].term != ts[|ts| - 1].term {
      assert init[i] == ts[i];
    }
  }

  /** A term listed at most once adds its squared weight at most once. */
  lemma RepeatAtMostOnce(c: nat, w: real)
    requires c <= 1
    ensures Repeat(c, w * w) <= w * w
  {
    var x := w * w;
    assert x >= 0.0;
    if c == 1 {
      assert Repeat(1, x) == Repeat(0, x) + x;
    }
  }

  lemma {:induction false} SqProjEmpty(a: seq<Term>)
    ensures SqProj(a, map[]) == 0.0
  {
    if a != [] {
      SqProjEmpty(a[..|a| - 1]);
    }
  }

  lemma SquareMonotone(x: real, y: real)
    requires 0.0 <= x && 0.0 <= y && x * x <= y * y
    ensures x <= y
  {
    if x + y != 0.0 {
      assert (y - x) * (x + y) == y * y - x * x;
      PositiveFactor(y - x, x + y);
    }
  }

  lemma PositiveFactor(a: real, b: real)
    requires b > 0.0 && a * b >= 0.0
    ensures a >= 0.0
  {
  }

  /** The step of the induction: if D*D <= S*P, adding one aligned pair (a, p) keeps it. */
  lemma CauchySchwarzStep(d: real, s: real, pp: real, a: real, p: real)
    requires 0.0 <= d && 0.0 <= s && 0.0 <= pp && 0.0 <= a && 0.0 <= p
    requires d * d <= s * pp
    ensures (d + a * p) * (d + a * p) <= (s + a * a) * (pp + p * p)
  {
    var x := s * (p * p);
    var y := (a * a) * pp;
    assert 0.0 <= x && 0.0 <= y;
    // (2 d a p)^2 = 4 d^2 (a p)^2 <= 4 s pp (a p)^2 = 4 x y <= (x + y)^2
    var ap := a * p;
    assert 0.0 <= ap * ap;
    assert (d * d) * (ap * ap) <= (s * pp) * (ap * ap);
    assert (s * pp) * (ap * ap) == x * y;
    assert 4.0 * (x * y) <= (x + y) * (x + y) by {
      assert (x - y) * (x - y) >= 0.0;
    }
    var two := 2.0 * d * ap;
    assert two * two == 4.0 * ((d * d) * (ap * ap));
    SquareMonotone(two, x + y);
    assert (d + ap) * (d + ap) == d * d + two + ap * ap;
    assert (s + a * a) * (pp + p * p) == s * pp + x + y + ap * ap;
  }

  /** Cauchy-Schwarz over the aligned weights, and the dot product is non-negative. */
  lemma {:induction false} DotBound(a: seq<Term>, mb: map<string, real>)
    requires WellFormedTerms(a)
    requires forall t :: t in mb ==> mb[t] >= 0.0
    ensures 0.0 <= Dot(a, mb)
    ensures Dot(a, mb) * Dot(a, mb) <= SumSq(a) * SqProj(a, mb)
  {
    if a != [] {
      var a' := a[..|a| - 1];
      var t := a[|a| - 1];
      WellFormedInit(a);
      DotBound(a', mb);
      SqProjNonNegative(a', mb);
      var p := Proj(mb, t.term);
      assert 0.0 <= t.tfidf && 0.0 <= p;
      var d := Dot(a', mb);
      assert Dot(a, mb) == d + t.tfidf * p;
      assert SumSq(a) == SumSq(a') + t.tfidf * t.tfidf;
      assert SqProj(a, mb) == SqProj(a', mb) + p * p;
      CauchySchwarzStep(d, SumSq(a'), SqProj(a', mb), t.tfidf, p);
    }
  }

  lemma WellFormedInit(ts: seq<Term>)
    requires WellFormedTerms(ts) && ts != []
    ensures WellFormedTerms(ts[..|ts| - 1])
  {
  }

  lemma {:induction false} SqProjNonNegative(a: seq<Term>, mb: map<string, real>)
    ensures SqProj(a, mb) >= 0.0
  {
    if a != [] {
      SqProjNonNegative(a[..|a| - 1], mb);
    }
  }

  /** The cosine lies in [0,1]: it is 0 for a zero norm, and otherwise the dot product over
      shared terms never exceeds the product of the norms. */
  lemma CosineBounds(a: seq<Term>, b: seq<Term>, sqrt: real -> real)
    requires WellFormedTerms(a) && WellFormedTerms(b) && IsSqrt(sqrt)
    ensures 0.0 <= CosineSpec(a, b, sqrt) <= 1.0
  {
    var sa, sb := SumSq(a), SumSq(b);
    if sa != 0.0 && sb != 0.0 {
      var mb := WeightMap(b);
      WeightMapNonNegative(b);
      DotBound(a, mb);
      SqProjBound(a, b);
      SqrtProduct(sqrt, sa, sb);
      CosineRatio(Dot(a, mb), SqProj(a, mb), sa, sb, sqrt(sa) * sqrt(sb));
      assert CosineSpec(a, b, sqrt) == Dot(a, mb) / (sqrt(sa) * sqrt(sb));
    }
  }

  /** The product of two square roots is positive and squares to the product. */
  lemma SqrtProduct(sqrt: real -> real, x: real, y: real)
    requires IsSqrt(sqrt) && x > 0.0 && y > 0.0
    ensures sqrt(x) * sqrt(y) > 0.0
    ensures (sqrt(x) * sqrt(y)) * (sqrt(x) * sqrt(y)) == x * y
  {
    SqrtPositive(sqrt, x);
    SqrtPositive(sqrt, y);
    var n := sqrt(x) * sqrt(y);
    assert n * n == (sqrt(x) * sqrt(x)) * (sqrt(y) * sqrt(y));
  }

  /** Cauchy-Schwarz turned into the bound: d*d <= sa*q <= sa*sb == n*n gives d/n <= 1. */
  lemma CosineRatio(d: real, q: real, sa: real, sb: real, n: real)
    requires 0.0 <= d && 0.0 <= q <= sb && 0.0 < sa && 0.0 < n
    requires d * d <= sa * q && n * n == sa * sb
    ensures 0.0 <= d / n <= 1.0
  {
    assert sa * q <= sa * sb;
    SquareMonotone(d, n);
  }

}

/** Ranking the scored jobs: `results.sort((a, b) => b.score - a.score)` in
    backend/controllers/jobRecommendation.js, a stable sort by descending score, then the
    cut to the first three with the score as a rounded percentage. */
module Ranking {
  import opened JobScores
  import opened JsValues

  /** One entry of `results`: the job, its final score and its components. */
  datatype ScoredJob<J> = ScoredJob(job: J, score: real, components: Components)

  /** `s` with `x` placed after every entry whose score is at least `x`'s: where a stable
      descending sort puts an entry that comes after all of `s`. */
  function Insert<J>(s: seq<ScoredJob<J>>, x: ScoredJob<J>): (r: seq<ScoredJob<J>>)
    ensures |r| == |s| + 1
  {
    if s == [] || s[|s| - 1].score >= x.score then s + [x]
    else Insert(s[..|s| - 1], x) + [s[|s| - 1]]
  }

  /** The stable sort by descending score. */
  function SortDesc<J>(s: seq<ScoredJob<J>>): (r: seq<ScoredJob<J>>)
    ensures |r| == |s|
  {
    if s == [] then [] else Insert(SortDesc(s[..|s| - 1]), s[|s| - 1])
  }

  predicate SortedDesc<J>(s: seq<ScoredJob<J>>) {
    forall i, j :: 0 <= i < j < |s| ==> s[i].score >= s[j].score
  }

  /** The entries with score `v`, in order. */
  function WithScore<J>(s: seq<ScoredJob<J>>, v: real): seq<ScoredJob<J>> {
    if s == [] then []
    else WithScore(s[..|s| - 1], v) + (if s[|s| - 1].score == v then [s[|s| - 1]] else [])
  }

  /** The sort done in place: an insertion sort, which leaves equal scores in fetch order. */
  method SortByScore<J>(a: array<ScoredJob<J>>)
    modifies a
    ensures a[..] == SortDesc(old(a[..]))
  {
    ghost var input := a[..];
    var i := 0;
    while i < a.Length
      invariant 0 <= i <= a.Length
      invariant a[..i] == SortDesc(input[..i])
      invariant a[i..] == input[i..]
    {
      ghost var before := a[..];
      assert before[i] == before[i..][0];
      InsertAt(a, i);
      SortDescStep(input, i);
      i := i + 1;
    }
    assert input[..a.Length] == input;
  }

  /** One more element of the input is one more insertion into the sorted prefix. */
  lemma SortDescStep<J>(s: seq<ScoredJob<J>>, i: nat)
    requires i < |s|
    ensures SortDesc(s[..i + 1]) == Insert(SortDesc(s[..i]), s[i])
  {
    assert s[..i + 1][..i] == s[..i];
  }

  /** One pass of the insertion sort: `a[i]` moves left past every entry with a strictly
      lower score. */
  method InsertAt<J>(a: array<ScoredJob<J>>, i: nat)
    requires i < a.Length
    modifies a
    ensures a[..i + 1] == Insert(old(a[..i]), old(a[i]))
    ensures a[i + 1..] == old(a[i + 1..])
  {
    ghost var sorted := a[..i];
    var x := a[i];
    var j := i;
    while j > 0 && a[j - 1].score < x.score
      invariant 0 <= j <= i
      invariant a[..j] == sorted[..j]
      invariant a[j + 1..i + 1] == sorted[j..i]
      invariant a[i + 1..] == old(a[i + 1..])
      invariant forall k :: j <= k < i ==> sorted[k].score < x.score
    {
      a[j] := a[j - 1];
      j := j - 1;
    }
    a[j] := x;
    InsertSplit(sorted, x, j);
    assert a[..i + 1] == sorted[..j] + [x] + sorted[j..i];
  }

  /** `Insert(s, x)` puts `x` after the prefix that ends with a score at least `x`'s and
      before the suffix of strictly lower scores. */
  lemma {:induction false} InsertSplit<J>(s: seq<ScoredJob<J>>, x: ScoredJob<J>, j: nat)
    requires j <= |s| && (j == 0 || s[j - 1].score >= x.score)
    requires forall k :: j <= k < |s| ==> s[k].score < x.score
    ensures Insert(s, x) == s[..j] + [x] + s[j..]
    decreases |s|
  {
    if j < |s| {
      var init := s[..|s| - 1];
      assert init[..j] == s[..j];
      InsertSplit(init, x, j);
      assert s[j..] == init[j..] + [s[|s| - 1]];
    }
  }

  lemma {:induction false} InsertSorted<J>(s: seq<ScoredJob<J>>, x: ScoredJob<J>)
    requires SortedDesc(s)
    ensures SortedDesc(Insert(s, x))
    ensures forall k :: 0 <= k < |Insert(s, x)| ==> Insert(s, x)[k] in s || Insert(s, x)[k] == x
  {
    if s != [] && s[|s| - 1].score < x.score {
      var last := s[|s| - 1];
      InsertSorted(s[..|s| - 1], x);
      var r := Insert(s[..|s| - 1], x);
      forall k | 0 <= k < |r| ensures r[k].score >= last.score {
        if r[k] != x {
          assert r[k] in s[..|s| - 1];
        }
      }
      forall k | 0 <= k < |r| ensures r[k] in s || r[k] == x {
        if r[k] != x {
          assert r[k] in s[..|s| - 1];
        }
      }
    }
  }

  /** The sort's output is ordered by non-increasing score. */
  lemma {:induction false} SortDescSorted<J>(s: seq<ScoredJob<J>>)
    ensures SortedDesc(SortDesc(s))
  {
    if s != [] {
      SortDescSorted(s[..|s| - 1]);
      InsertSorted(SortDesc(s[..|s| - 1]), s[|s| - 1]);
    }
  }

  lemma {:induction false} InsertPermutes<J>(s: seq<ScoredJob<J>>, x: ScoredJob<J>)
    ensures multiset(Insert(s, x)) == multiset(s) + multiset{x}
  {
    if s != [] && s[|s| - 1].score < x.score {
      InsertPermutes(s[..|s| - 1], x);
      assert s == s[..|s| - 1] + [s[|s| - 1]];
    }
  }

  /** The sort's output is a permutation of its input. */
  lemma {:induction false} SortDescPermutes<J>(s: seq<ScoredJob<J>>)
    ensures multiset(SortDesc(s)) == multiset(s)
  {
    if s != [] {
      SortDescPermutes(s[..|s| - 1]);
      InsertPermutes(SortDesc(s[..|s| - 1]), s[|s| - 1]);
      assert s == s[..|s| - 1] + [s[|s| - 1]];
    }
  }

  lemma {:induction false} WithScoreAppend<J>(a: seq<ScoredJob<J>>, b: seq<ScoredJob<J>>, v: real)
    ensures WithScore(a + b, v) == WithScore(a, v) + WithScore(b, v)
    decreases |b|
  {
    if b == [] {
      assert a + b == a;
    } else {
      WithScoreAppend(a, b[..|b| - 1], v);
      assert (a + b)[..|a + b| - 1] == a + b[..|b| - 1];
      assert WithScore(b, v) == WithScore(b[..|b| - 1], v) + WithScore([b[|b| - 1]], v);
    }
  }

  lemma {:induction false} InsertStable<J>(s: seq<ScoredJob<J>>, x: ScoredJob<J>, v: real)
    ensures WithScore(Insert(s, x), v) == WithScore(s, v) + WithScore([x], v)
  {
    if s == [] || s[|s| - 1].score >= x.score {
      WithScoreAppend(s, [x], v);
    } else {
      var init, last := s[..|s| - 1], s[|s| - 1];
      InsertStable(init, x, v);
      WithScoreAppend(Insert(init, x), [last], v);
      WithScoreAppend(init, [last], v);
      assert s == init + [last];
      assert WithScore([x], v) == [] || WithScore([last], v) == [];
    }
  }

  /** Stability: the entries of any one score leave the sort in their original order. */
  lemma {:induction false} SortDescStable<J>(s: seq<ScoredJob<J>>, v: real)
    ensures WithScore(SortDesc(s), v) == WithScore(s, v)
  {
    if s != [] {
      var init, last := s[..|s| - 1], s[|s| - 1];
      SortDescStable(init, v);
      InsertStable(SortDesc(init), last, v);
      WithScoreAppend(init, [last], v);
      assert s == init + [last];
    }
  }

  /** Equal scores keep fetch order: two entries with the same score, the first before the
      second in the input, stay in that order. */
  lemma TiesKeepOrder<J>(a: ScoredJob<J>, b: ScoredJob<J>)
    requires a.score == b.score
    ensures SortDesc([a, b]) == [a, b]
  {
    assert [a, b][..1] == [a];
  }

  /** `scorePercent`. */
  function ScorePercent(score: real): int {
    MathRound(score * 100.0)
  }

  /** A score in [0,1] gives a percentage in [0,100], and a higher score never gives a
      lower percentage. */
  lemma ScorePercentSpec(s1: real, s2: real)
    ensures 0.0 <= s1 <= 1.0 ==> 0 <= ScorePercent(s1) <= 100
    ensures s1 >= s2 ==> ScorePercent(s1) >= ScorePercent(s2)
  {
    if s1 >= s2 {
      assert s1 * 100.0 + 0.5 >= s2 * 100.0 + 0.5;
    }
  }
}

/** Skill overlap between a worker and a job (`fuzzySkillScore` and the unused
    `jaccardOverlap` in backend/controllers/jobRecommendation.js). The string similarity
    (Jaro-Winkler from the `natural` library) is the parameter `sim`. */
module SkillMatch {
  import opened Text

  /** `(s || '').toLowerCase().trim()`; a missing skill is passed as "". */
  function NormalizeSkill(s: string): string {
    Trim(Lower(s))
  }

  function NormalizeSkills(ss: seq<string>): (r: seq<string>)
    ensures |r| == |ss|
  {
    seq(|ss|, i requires 0 <= i < |ss| => NormalizeSkill(ss[i]))
  }

  function Min(a: real, b: real): real {
    if a <= b then a else b
  }

  /** `best` in the inner loop: its score and the claimed job-skill index (-1 for none). */
  datatype Best = Best(score: real, idx: int)

  /** The value of `best` after the inner loop has looked at job-skill indices below `n`:
      claimed indices are skipped and a candidate replaces `best` only with a strictly
      higher score. */
  function BestUpTo(us: string, js: seq<string>, used: set<int>, sim: (string, string) -> real, n: nat): Best
    requires n <= |js|
  {
    if n == 0 then Best(0.0, -1)
    else
      var b := BestUpTo(us, js, used, sim, n - 1);
      if n - 1 in used then b
      else
        var score := sim(us, js[n - 1]);
        if score > b.score then Best(score, n - 1) else b
  }

  /** The matcher's state: the number of matches and the set `used` of claimed indices. */
  datatype Matching = Matching(matches: nat, used: set<int>)

  /** One pass of the outer loop, for the worker skill `us`. */
  function Step(m: Matching, us: string, js: seq<string>, sim: (string, string) -> real, threshold: real): Matching {
    var best := BestUpTo(us, js, m.used, sim, |js|);
    if best.score >= threshold && best.idx >= 0 then Matching(m.matches + 1, m.used + {best.idx}) else m
  }

  /** The matcher's state after the first `n` worker skills. */
  function GreedyUpTo(u: seq<string>, js: seq<string>, sim: (string, string) -> real, threshold: real, n: nat): Matching
    requires n <= |u|
  {
    if n == 0 then Matching(0, {})
    else Step(GreedyUpTo(u, js, sim, threshold, n - 1), u[n - 1], js, sim, threshold)
  }

  /** `new Set([...u, ...j]).size`. */
  function DistinctCount(u: seq<string>, j: seq<string>): nat {
    |(set x | x in u) + (set x | x in j)|
  }

  /** The value `fuzzySkillScore` returns. */
  function FuzzySpec(userSkills: seq<string>, jobSkills: seq<string>, sim: (string, string) -> real, threshold: real): real {
    var u, j := NormalizeSkills(userSkills), NormalizeSkills(jobSkills);
    if |u| == 0 && |j| == 0 then 0.0
    else
      var union := if DistinctCount(u, j) == 0 then 1 else DistinctCount(u, j);
      Min(1.0, GreedyUpTo(u, j, sim, threshold, |u|).matches as real / union as real)
  }

  /** `fuzzySkillScore`: normalise both lists, match greedily, divide by the number of
      distinct skills and cap at 1; proved to compute `FuzzySpec`. */
  method FuzzySkillScore(userSkills: seq<string>, jobSkills: seq<string>, sim: (string, string) -> real, threshold: real)
    returns (r: real)
    ensures r == FuzzySpec(userSkills, jobSkills, sim, threshold)
    ensures 0.0 <= r <= 1.0
  {
    var u := NormalizeSkills(userSkills);
    var j := NormalizeSkills(jobSkills);
    if |u| == 0 && |j| == 0 {
      r := 0.0;
    } else {
      var matches, used := GreedyMatch(u, j, sim, threshold);
      var union := DistinctCount(u, j);
      if union == 0 {
        union := 1;
      }
      r := Min(1.0, matches as real / union as real);
    }
    FuzzyBounds(userSkills, jobSkills, sim, threshold);
  }

  /** The outer loop of `fuzzySkillScore`: each worker skill in turn claims its best
      unclaimed job skill when that scores at least `threshold`. */
  method GreedyMatch(u: seq<string>, j: seq<string>, sim: (string, string) -> real, threshold: real)
    returns (matches: nat, used: set<int>)
    ensures Matching(matches, used) == GreedyUpTo(u, j, sim, threshold, |u|)
  {
    matches := 0;
    used := {};
    var i := 0;
    while i < |u|
      invariant 0 <= i <= |u|
      invariant Matching(matches, used) == GreedyUpTo(u, j, sim, threshold, i)
    {
      var best := BestUnclaimed(u[i], j, used, sim);
      if best.score >= threshold && best.idx >= 0 {
        matches := matches + 1;
        used := used + {best.idx};
      }
      i := i + 1;
    }
  }

  /** The inner loop of `fuzzySkillScore`: the best job skill for `us` not yet claimed. */
  method BestUnclaimed(us: string, j: seq<string>, used: set<int>, sim: (string, string) -> real) returns (best: Best)
    ensures best == BestUpTo(us, j, used, sim, |j|)
  {
    best := Best(0.0, -1);
    var k := 0;
    while k < |j|
      invariant 0 <= k <= |j|
      invariant best == BestUpTo(us, j, used, sim, k)
    {
      if k in used {
        k := k + 1;
        continue;
      }
      var js := j[k];
      var score := sim(us, js);
      if score > best.score {
        best := Best(score, k);
      }
      k := k + 1;
    }
  }

  /** What the inner loop selects: nothing (index -1, score 0) when no unclaimed index
      scores above 0; otherwise an unclaimed index whose score is the highest among the
      unclaimed ones, and the first index reaching it, since the comparison is strict. */
  lemma {:induction false} BestSpec(us: string, js: seq<string>, used: set<int>, sim: (string, string) -> real, n: nat)
    requires n <= |js|
    ensures var b := BestUpTo(us, js, used, sim, n);
      && (b.idx == -1 || (0 <= b.idx < n && b.idx !in used && b.score == sim(us, js[b.idx])))
      && (b.idx == -1 ==> b.score == 0.0)
      && b.score >= 0.0
      && (forall k :: 0 <= k < n && k !in used ==> sim(us, js[k]) <= b.score)
      && (forall k :: 0 <= k < b.idx && k !in used ==> sim(us, js[k]) < b.score)
  {
    if n > 0 {
      BestSpec(us, js, used, sim, n - 1);
    }
  }

  /** The `used` set claims each job-skill index at most once: it holds exactly `matches`
      indices, all of them valid, and there are no more matches than worker skills seen. */
  lemma {:induction false} GreedyInvariant(u: seq<string>, js: seq<string>, sim: (string, string) -> real, threshold: real, n: nat)
    requires n <= |u|
    ensures var m := GreedyUpTo(u, js, sim, threshold, n);
      && (forall k :: k in m.used ==> 0 <= k < |js|)
      && |m.used| == m.matches
      && m.matches <= n
  {
    if n > 0 {
      GreedyInvariant(u, js, sim, threshold, n - 1);
      StepInvariant(GreedyUpTo(u, js, sim, threshold, n - 1), u[n - 1], js, sim, threshold);
    }
  }

  /** One pass claims at most one new, valid index. */
  lemma StepInvariant(m: Matching, us: string, js: seq<string>, sim: (string, string) -> real, threshold: real)
    requires forall k :: k in m.used ==> 0 <= k < |js|
    requires |m.used| == m.matches
    ensures var m' := Step(m, us, js, sim, threshold);
      && (forall k :: k in m'.used ==> 0 <= k < |js|)
      && |m'.used| == m'.matches
      && m'.matches <= m.matches + 1
  {
    var best := BestUpTo(us, js, m.used, sim, |js|);
    BestIndex(us, js, m.used, sim, |js|);
    if best.score >= threshold && best.idx >= 0 {
      assert |m.used + {best.idx}| == |m.used| + 1;
    }
  }

  /** The index the inner loop selects is -1 or an unclaimed valid index. */
  lemma {:induction false} BestIndex(us: string, js: seq<string>, used: set<int>, sim: (string, string) -> real, n: nat)
    requires n <= |js|
    ensures var b := BestUpTo(us, js, used, sim, n);
      b.idx == -1 || (0 <= b.idx < n && b.idx !in used)
  {
    if n > 0 {
      BestIndex(us, js, used, sim, n - 1);
    }
  }

  function Indices(n: nat): (r: set<int>)
    ensures forall k :: k in r <==> 0 <= k < n
    ensures |r| == n
  {
    if n == 0 then {} else
      var r := Indices(n - 1);
      assert n - 1 !in r;
      r + {n - 1}
  }

  lemma SubsetCard<T>(a: set<T>, b: set<T>)
    requires a <= b
    ensures |a| <= |b|
  {
    assert b == a + (b - a);
  }

  /** Greedy matching never makes more matches than either list has skills. */
  lemma MatchesBound(u: seq<string>, js: seq<string>, sim: (string, string) -> real, threshold: real)
    ensures var m := GreedyUpTo(u, js, sim, threshold, |u|);
      m.matches <= |u| && m.matches <= |js|
  {
    var m := GreedyUpTo(u, js, sim, threshold, |u|);
    GreedyInvariant(u, js, sim, threshold, |u|);
    SubsetCard(m.used, Indices(|js|));
  }

  /** The score is 0 for two empty lists and always lies in [0,1]. */
  lemma FuzzyBounds(userSkills: seq<string>, jobSkills: seq<string>, sim: (string, string) -> real, threshold: real)
    ensures 0.0 <= FuzzySpec(userSkills, jobSkills, sim, threshold) <= 1.0
    ensures |userSkills| == 0 && |jobSkills| == 0 ==> FuzzySpec(userSkills, jobSkills, sim, threshold) == 0.0
  {
    var u, j := NormalizeSkills(userSkills), NormalizeSkills(jobSkills);
    if !(|u| == 0 && |j| == 0) {
      var union := if DistinctCount(u, j) == 0 then 1 else DistinctCount(u, j);
      var m := GreedyUpTo(u, j, sim, threshold, |u|).matches;
      RatioNonNegative(m, union);
    }
  }

  lemma RatioNonNegative(m: nat, d: nat)
    requires d > 0
    ensures m as real / d as real >= 0.0
  {
  }

  /** When no worker skill is at least `threshold`-similar to any job skill, nothing matches
      and the score is 0. */
  lemma {:induction false} NoSimilarPairNoMatch(u: seq<string>, js: seq<string>, sim: (string, string) -> real, threshold: real, n: nat)
    requires n <= |u| && threshold > 0.0
    requires forall i, k :: 0 <= i < |u| && 0 <= k < |js| ==> sim(u[i], js[k]) < threshold
    ensures GreedyUpTo(u, js, sim, threshold, n) == Matching(0, {})
  {
    if n > 0 {
      NoSimilarPairNoMatch(u, js, sim, threshold, n - 1);
      BestSpec(u[n - 1], js, {}, sim, |js|);
      assert GreedyUpTo(u, js, sim, threshold, n) == Step(Matching(0, {}), u[n - 1], js, sim, threshold);
    }
  }

  /** Exact string equality as a similarity, for the worked examples below. */
  function ExactSim(a: string, b: string): real {
    if a == b then 1.0 else 0.0
  }

  /** A worker skill "Plumbing" against job skills "Plumbing" and "Pipe Fitting": one match
      over two distinct skills, a score of 0.5. */
  lemma HalfOverlapExample()
    ensures FuzzySpec(["Plumbing"], ["Plumbing", "Pipe Fitting"], ExactSim, 0.85) == 0.5
  {
    var u: seq<string> := ["plumbing"];
    var j: seq<string> := ["plumbing", "pipe fitting"];
    PlumbingSkills();
    PlumbingMatch();
    PlumbingDistinct();
  }

  lemma PlumbingDistinct()
    ensures DistinctCount(["plumbing"], ["plumbing", "pipe fitting"]) == 2
  {
    var u: seq<string> := ["plumbing"];
    var j: seq<string> := ["plumbing", "pipe fitting"];
    assert (set x | x in u) + (set x | x in j) == {"plumbing", "pipe fitting"};
  }

  lemma PlumbingMatch()
    ensures GreedyUpTo(["plumbing"], ["plumbing", "pipe fitting"], ExactSim, 0.85, 1).matches == 1
  {
    var j: seq<string> := ["plumbing", "pipe fitting"];
    assert BestUpTo("plumbing", j, {}, ExactSim, 1) == Best(1.0, 0);
    assert BestUpTo("plumbing", j, {}, ExactSim, 2) == Best(1.0, 0);
  }

  lemma PlumbingSkills()
    ensures NormalizeSkills(["Plumbing"]) == ["plumbing"]
    ensures NormalizeSkills(["Plumbing", "Pipe Fitting"]) == ["plumbing", "pipe fitting"]
  {
    assert Lower("Plumbing") == "plumbing";
    assert Lower("Pipe Fitting") == "pipe fitting";
    assert TrimStart("pipe fitting") == "pipe fitting";
    assert TrimEnd("pipe fitting") == "pipe fitting";
    assert TrimStart("plumbing") == "plumbing";
    assert TrimEnd("plumbing") == "plumbing";
  }

  /** The cap at 1 is reachable: duplicated skills make more matches than distinct skills. */
  lemma CapReachedExample()
    ensures GreedyUpTo(["a", "a"], ["a", "a"], ExactSim, 0.85, 2).matches == 2
    ensures FuzzySpec(["a", "a"], ["a", "a"], ExactSim, 0.85) == 1.0
  {
    var u: seq<string> := ["a", "a"];
    DoubledSkill();
    DoubledMatch();
    assert DistinctCount(u, u) == 1 by {
      assert (set x | x in u) + (set x | x in u) == {"a"};
    }
  }

  lemma DoubledSkill()
    ensures NormalizeSkills(["a", "a"]) == ["a", "a"]
  {
    assert Lower("a") == "a";
    assert TrimStart("a") == "a" && TrimEnd("a") == "a";
  }

  lemma DoubledMatch()
    ensures GreedyUpTo(["a", "a"], ["a", "a"], ExactSim, 0.85, 2) == Matching(2, {0, 1})
  {
    var u: seq<string> := ["a", "a"];
    assert BestUpTo("a", u, {}, ExactSim, 2) == Best(1.0, 0);
    assert BestUpTo("a", u, {0}, ExactSim, 2) == Best(1.0, 1);
    assert GreedyUpTo(u, u, ExactSim, 0.85, 1) == Matching(1, {0});
  }

  /** `jaccardOverlap`: shared over distinct normalised skills, 0 for two empty lists. */
  function JaccardOverlap(arrA: seq<string>, arrB: seq<string>): real {
    var a := set x | x in NormalizeSkills(arrA);
    var b := set x | x in NormalizeSkills(arrB);
    if |a| == 0 && |b| == 0 then 0.0
    else
      var uni := |a + b|;
      if uni == 0 then 0.0 else |a * b| as real / uni as real
  }

  /** The Jaccard overlap lies in [0,1] and does not depend on the argument order. */
  lemma JaccardBounds(arrA: seq<string>, arrB: seq<string>)
    ensures 0.0 <= JaccardOverlap(arrA, arrB) <= 1.0
    ensures JaccardOverlap(arrA, arrB) == JaccardOverlap(arrB, arrA)
  {
    var a := set x | x in NormalizeSkills(arrA);
    var b := set x | x in NormalizeSkills(arrB);
    SubsetCard(a * b, a + b);
    assert a + b == b + a && a * b == b * a;
    if |a + b| > 0 {
      RatioAtMostOne(|a * b|, |a + b|);
    }
  }

  lemma RatioAtMostOne(m: nat, d: nat)
    requires 0 < d && m <= d
    ensures 0.0 <= m as real / d as real <= 1.0
    ensures m as real / d as real == 1.0 <==> m == d
  {
  }

  /** The overlap is 1 exactly when both lists name the same non-empty set of skills. */
  lemma JaccardOne(arrA: seq<string>, arrB: seq<string>)
    ensures var a, b := (set x | x in NormalizeSkills(arrA)), (set x | x in NormalizeSkills(arrB));
      JaccardOverlap(arrA, arrB) == 1.0 <==> a == b && a != {}
  {
    var a := set x | x in NormalizeSkills(arrA);
    var b := set x | x in NormalizeSkills(arrB);
    SubsetCard(a * b, a + b);
    if |a + b| > 0 {
      RatioAtMostOne(|a * b|, |a + b|);
      if |a * b| == |a + b| {
        EqualCardSubset(a * b, a + b);
        assert a == b by {
          forall x | x in a ensures x in b { assert x in a + b; }
          forall x | x in b ensures x in a { assert x in a + b; }
        }
      }
      if a == b {
        assert a * b == a + b;
      }
    } else {
      assert a == {} by { assert forall x :: x in a ==> x in a + b; }
    }
  }

  lemma EqualCardSubset<T>(a: set<T>, b: set<T>)
    requires a <= b && |a| == |b|
    ensures a == b
  {
    assert b == a + (b - a);
    assert |b - a| == 0;
  }
}

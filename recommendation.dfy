/** `getJobRecommendations` in backend/controllers/jobRecommendation.js: score every
    active job against the signed-in worker, sort by score and answer with the top three.
    The database reads are the sequences `users` and `jobs` (the collection in fetch
    order); the `natural` library's stemmer, Jaro-Winkler similarity and TF-IDF term
    lists, and `Math.sqrt`, are the bundle `Nlp`; JavaScript's `Number` on request
    values is `toNumber`. */
module Recommendation {
  import opened Text
  import opened Outcomes
  import opened JsValues
  import opened RecommendText
  import opened Cosine
  import opened SkillMatch
  import opened JobScores
  import opened Ranking

  datatype SalaryRange = SalaryRange(min: Option<real>, max: Option<real>)

  /** A job as read from the collection; missing strings are "". */
  datatype JobRecord = JobRecord(
    id: string, title: string, description: string, requiredSkills: seq<string>,
    location: string, experience: string, salaryRange: SalaryRange, status: string)

  /** A worker as read from the collection; missing strings are "". The schema declares
      no salary preference, so the profile never supplies one. */
  datatype UserRecord = UserRecord(id: string, name: string, address: string, skills: seq<string>, experience: string)

  /** The foreign functions: `stem` (Porter stemmer), `similarity` (Jaro-Winkler),
      `listTerms(docs, i)` (the TF-IDF terms of document `i` of the corpus `docs`) and `sqrt`. */
  datatype Nlp = Nlp(
    stem: string -> string,
    similarity: (string, string) -> real,
    listTerms: (seq<string>, nat) -> seq<Term>,
    sqrt: real -> real)

  /** What the library guarantees: term lists with distinct terms and non-negative weights,
      and a true square root. */
  ghost predicate ValidNlp(nlp: Nlp) {
    && IsSqrt(nlp.sqrt)
    && forall docs, i :: WellFormedTerms(nlp.listTerms(docs, i))
  }

  /** One entry of the answer. */
  datatype Recommended = Recommended(job: JobRecord, scorePercent: int, components: Components)

  /** `Job.find({ status: "active" })`, in fetch order. */
  function ActiveJobs(jobs: seq<JobRecord>): (r: seq<JobRecord>)
    ensures forall j :: j in r <==> j in jobs && j.status == "active"
    ensures |r| <= |jobs|
  {
    if jobs == [] then []
    else
      var rest := ActiveJobs(jobs[..|jobs| - 1]);
      var last := jobs[|jobs| - 1];
      assert jobs == jobs[..|jobs| - 1] + [last];
      if last.status == "active" then rest + [last] else rest
  }

  /** `User.findById(userId)`. */
  function FindUser(users: seq<UserRecord>, id: string): (r: Option<UserRecord>)
    ensures r.Some? ==> r.value in users && r.value.id == id
    ensures r.None? <==> forall u :: u in users ==> u.id != id
  {
    if users == [] then None
    else if users[0].id == id then Some(users[0])
    else FindUser(users[1..], id)
  }

  /** The text of a job that goes into the TF-IDF corpus. */
  function JobDoc(j: JobRecord, stem: string -> string): string {
    NormalizeAndStem(Trim(j.title + " " + j.description + " " + Join(j.requiredSkills, " ") + " " + j.location), stem)
  }

  /** The text of the worker, added to the corpus last. */
  function UserDoc(u: UserRecord, stem: string -> string): string {
    NormalizeAndStem(Trim(Join(u.skills, " ") + " " + u.address + " " + u.name), stem)
  }

  /** The corpus: one document per active job, in order, then the worker's. */
  function Corpus(user: UserRecord, active: seq<JobRecord>, stem: string -> string): (docs: seq<string>)
    ensures |docs| == |active| + 1
  {
    seq(|active|, i requires 0 <= i < |active| => JobDoc(active[i], stem)) + [UserDoc(user, stem)]
  }

  /** The five components for the job at corpus index `i`. */
  function ComponentsSpec(user: UserRecord, job: JobRecord, i: nat, docs: seq<string>,
                          body: Option<map<string, Json>>, toNumber: Json -> JsNumber, nlp: Nlp): Components
    requires ValidNlp(nlp) && i < |docs|
  {
    var tfidf := OrZero(CosineAsWritten(nlp.listTerms(docs, i), nlp.listTerms(docs, |docs| - 1), nlp.sqrt));
    var skills := FuzzySpec(user.skills, job.requiredSkills, nlp.similarity, 0.85);
    var exp := ExperienceScore(ParseYears(user.experience), ParseYears(job.experience));
    var loc := LocationScore(user.address, job.location);
    var pref := ResolvePreference(RequestPreference(body, toNumber), None);
    var sal := SalaryScore(pref, job.salaryRange.min, job.salaryRange.max);
    Components(skills, tfidf, exp, loc, sal)
  }

  /** The scored entry for the job at corpus index `i`. */
  function ScoreSpec(user: UserRecord, job: JobRecord, i: nat, docs: seq<string>,
                     body: Option<map<string, Json>>, toNumber: Json -> JsNumber, nlp: Nlp): ScoredJob<JobRecord>
    requires ValidNlp(nlp) && i < |docs|
  {
    var c := ComponentsSpec(user, job, i, docs, body, toNumber, nlp);
    ScoredJob(job, FinalScore(c), c)
  }

  /** `results`: every active job scored, in fetch order. */
  function Results(user: UserRecord, active: seq<JobRecord>, body: Option<map<string, Json>>,
                   toNumber: Json -> JsNumber, nlp: Nlp): (r: seq<ScoredJob<JobRecord>>)
    requires ValidNlp(nlp)
    ensures |r| == |active|
  {
    var docs := Corpus(user, active, nlp.stem);
    seq(|active|, i requires 0 <= i < |active| => ScoreSpec(user, active[i], i, docs, body, toNumber, nlp))
  }

  /** The results up to `i + 1` extend those up to `i` by the score of job `i`. */
  lemma ResultsStep(user: UserRecord, active: seq<JobRecord>, body: Option<map<string, Json>>,
                    toNumber: Json -> JsNumber, nlp: Nlp, i: nat)
    requires ValidNlp(nlp) && i < |active|
    ensures Results(user, active, body, toNumber, nlp)[..i + 1] ==
      Results(user, active, body, toNumber, nlp)[..i]
        + [ScoreSpec(user, active[i], i, Corpus(user, active, nlp.stem), body, toNumber, nlp)]
  {
    var rs := Results(user, active, body, toNumber, nlp);
    ResultsAt(user, active, body, toNumber, nlp, i);
    assert rs[..i + 1] == rs[..i] + [rs[i]];
  }

  /** Entry `i` of the results is job `i` scored at corpus index `i`. */
  lemma ResultsAt(user: UserRecord, active: seq<JobRecord>, body: Option<map<string, Json>>,
                  toNumber: Json -> JsNumber, nlp: Nlp, i: nat)
    requires ValidNlp(nlp) && i < |active|
    ensures Results(user, active, body, toNumber, nlp)[i] ==
      ScoreSpec(user, active[i], i, Corpus(user, active, nlp.stem), body, toNumber, nlp)
  {
  }

  function Present(e: ScoredJob<JobRecord>): Recommended {
    Recommended(e.job, ScorePercent(e.score), e.components)
  }

  /** `results.slice(0, 3).map(...)`. */
  function Top(sorted: seq<ScoredJob<JobRecord>>): (r: seq<Recommended>)
    ensures |r| == if |sorted| < 3 then |sorted| else 3
  {
    var n := if |sorted| < 3 then |sorted| else 3;
    seq(n, k requires 0 <= k < n => Present(sorted[k]))
  }

  /** The answer of `getJobRecommendations`. */
  function RecommendSpec(userId: Option<string>, users: seq<UserRecord>, jobs: seq<JobRecord>,
                         body: Option<map<string, Json>>, toNumber: Json -> JsNumber, nlp: Nlp): Outcome<seq<Recommended>>
    requires ValidNlp(nlp)
  {
    if userId.None? || userId.value == "" then Fail(Unauthorized)
    else
      match FindUser(users, userId.value)
      case None => Fail(NotFound)
      case Some(user) => Ok(Top(SortDesc(Results(user, ActiveJobs(jobs), body, toNumber, nlp))))
  }

  /** The per-job scorer: the five components, then their weighted sum. */
  method ScoreJob(user: UserRecord, job: JobRecord, i: nat, docs: seq<string>,
                  body: Option<map<string, Json>>, toNumber: Json -> JsNumber, nlp: Nlp)
    returns (r: ScoredJob<JobRecord>)
    requires ValidNlp(nlp) && i < |docs|
    ensures r == ScoreSpec(user, job, i, docs, body, toNumber, nlp)
    ensures var a, b := nlp.listTerms(docs, i), nlp.listTerms(docs, |docs| - 1);
      r.components.tfidf == if MissesInherited(a, WeightMap(b)) then 0.0 else CosineSpec(a, b, nlp.sqrt)
    ensures InUnit(r.components) && 0.0 <= r.score <= 1.0
  {
    var cosine := CosineTfidf(nlp.listTerms(docs, i), nlp.listTerms(docs, |docs| - 1), nlp.sqrt);
    var tfidfScore := OrZero(cosine);
    var skillsScore := FuzzySkillScore(user.skills, job.requiredSkills, nlp.similarity, 0.85);
    var expScore := ExperienceProximity(user.experience, job.experience);
    var locScore := LocationMatch(user.address, job.location);
    var pref := ResolvePreference(RequestPreference(body, toNumber), None);
    var salScore := SalaryMatch(pref, job.salaryRange);
    var components := Components(skillsScore, tfidfScore, expScore, locScore, salScore);
    r := ScoredJob(job, FinalScore(components), components);
    ScoreSpecIs(user, job, i, docs, body, toNumber, nlp, components);
    CosineOrZero(nlp.listTerms(docs, i), nlp.listTerms(docs, |docs| - 1), nlp.sqrt);
    ScoreSpecInUnit(user, job, i, docs, body, toNumber, nlp);
  }

  /** The experience block: neutral 0.5, replaced when both texts give years. */
  method ExperienceProximity(userText: string, jobText: string) returns (expScore: real)
    ensures expScore == ExperienceScore(ParseYears(userText), ParseYears(jobText))
    ensures 0.0 <= expScore <= 1.0
  {
    var userExp := ParseYears(userText);
    var jobExp := ParseYears(jobText);
    expScore := 0.5;
    if userExp.Some? && jobExp.Some? {
      var gap := Abs(userExp.value - jobExp.value);
      expScore := RMax(0.0, 1.0 - gap / RMax(1.0, jobExp.value));
    }
    ExperienceScoreSpec(userExp, jobExp);
  }

  /** The location block: exact, partial or no match, or unknown. */
  method LocationMatch(address: string, location: string) returns (locScore: real)
    ensures locScore == LocationScore(address, location)
    ensures 0.0 <= locScore <= 1.0
  {
    locScore := 0.0;
    if address != "" && location != "" {
      var ua := Lower(address);
      var jl := Lower(location);
      if jl == ua {
        locScore := 1.0;
      } else if Contains(jl, ua) || Contains(ua, jl) {
        locScore := 0.6;
      } else {
        locScore := 0.0;
      }
    } else {
      locScore := 0.5;
    }
  }

  /** The salary block: neutral 0.5, replaced when the preference and the job's minimum
      are both truthy. */
  method SalaryMatch(pref: Option<real>, range: SalaryRange) returns (salScore: real)
    ensures salScore == SalaryScore(pref, range.min, range.max)
    ensures 0.0 <= salScore <= 1.0
  {
    salScore := 0.5;
    if pref.Some? && pref.value != 0.0 && range.min.Some? && range.min.value != 0.0 {
      var p := pref.value;
      if range.max.Some? && p <= range.max.value && p >= range.min.value {
        salScore := 1.0;
      } else {
        var hi := if range.max.Some? && range.max.value != 0.0 then range.max.value else p;
        salScore := 1.0 - RMin(Abs(p - range.min.value), Abs(p - hi)) / RMax(1.0, p);
      }
      salScore := RMax(0.0, RMin(1.0, salScore));
    }
    SalaryScoreSpec(pref, range.min, range.max);
  }

  /** `ScoreSpec` assembled from its components. */
  lemma ScoreSpecIs(user: UserRecord, job: JobRecord, i: nat, docs: seq<string>,
                    body: Option<map<string, Json>>, toNumber: Json -> JsNumber, nlp: Nlp, c: Components)
    requires ValidNlp(nlp) && i < |docs|
    requires c.tfidf == OrZero(CosineAsWritten(nlp.listTerms(docs, i), nlp.listTerms(docs, |docs| - 1), nlp.sqrt))
    requires c.skills == FuzzySpec(user.skills, job.requiredSkills, nlp.similarity, 0.85)
    requires c.exp == ExperienceScore(ParseYears(user.experience), ParseYears(job.experience))
    requires c.loc == LocationScore(user.address, job.location)
    requires c.sal == SalaryScore(ResolvePreference(RequestPreference(body, toNumber), None), job.salaryRange.min, job.salaryRange.max)
    ensures ScoreSpec(user, job, i, docs, body, toNumber, nlp) == ScoredJob(job, FinalScore(c), c)
  {
    assert ComponentsSpec(user, job, i, docs, body, toNumber, nlp) == c;
  }

  /** `getJobRecommendations`: the guards, the scoring loop over the active jobs, the
      in-place sort and the top-3 cut. */
  method GetJobRecommendations(userId: Option<string>, users: seq<UserRecord>, jobs: seq<JobRecord>,
                               body: Option<map<string, Json>>, toNumber: Json -> JsNumber, nlp: Nlp)
    returns (r: Outcome<seq<Recommended>>)
    requires ValidNlp(nlp)
    ensures r == RecommendSpec(userId, users, jobs, body, toNumber, nlp)
  {
    if userId.None? || userId.value == "" {
      return Fail(Unauthorized);
    }
    var found := FindUser(users, userId.value);
    if found.None? {
      return Fail(NotFound);
    }
    var user := found.value;
    var active := ActiveJobs(jobs);
    var docs := Corpus(user, active, nlp.stem);
    ghost var expected := Results(user, active, body, toNumber, nlp);

    var results: seq<ScoredJob<JobRecord>> := [];
    var i := 0;
    while i < |active|
      invariant 0 <= i <= |active|
      invariant results == expected[..i]
    {
      var scored := ScoreJob(user, active[i], i, docs, body, toNumber, nlp);
      ResultsStep(user, active, body, toNumber, nlp, i);
      results := results + [scored];
      i := i + 1;
    }
    assert results == expected;

    var a := new ScoredJob<JobRecord>[|results|](k requires 0 <= k < |results| => results[k]);
    assert a[..] == results;
    SortByScore(a);
    r := Ok(Top(a[..]));
  }

  /** 401 exactly when there is no user id, 404 exactly when there is one but no such
      user; both are decided before any job is looked at. */
  lemma RecommendErrors(userId: Option<string>, users: seq<UserRecord>, jobs: seq<JobRecord>,
                        body: Option<map<string, Json>>, toNumber: Json -> JsNumber, nlp: Nlp)
    requires ValidNlp(nlp)
    ensures var r := RecommendSpec(userId, users, jobs, body, toNumber, nlp);
      && (r == Fail(Unauthorized) <==> userId.None? || userId.value == "")
      && (r == Fail(NotFound) <==>
            userId.Some? && userId.value != "" && forall u :: u in users ==> u.id != userId.value)
      && (r.Fail? ==> RecommendSpec(userId, users, [], body, toNumber, nlp) == r)
  {
  }

  /** Every component lies in [0,1]. */
  lemma ComponentsSpecInUnit(user: UserRecord, job: JobRecord, i: nat, docs: seq<string>,
                             body: Option<map<string, Json>>, toNumber: Json -> JsNumber, nlp: Nlp)
    requires ValidNlp(nlp) && i < |docs|
    ensures InUnit(ComponentsSpec(user, job, i, docs, body, toNumber, nlp))
  {
    CosineOrZero(nlp.listTerms(docs, i), nlp.listTerms(docs, |docs| - 1), nlp.sqrt);
    FuzzyBounds(user.skills, job.requiredSkills, nlp.similarity, 0.85);
    ExperienceScoreSpec(ParseYears(user.experience), ParseYears(job.experience));
    LocationScoreSpec(user.address, job.location);
    SalaryScoreSpec(ResolvePreference(RequestPreference(body, toNumber), None), job.salaryRange.min, job.salaryRange.max);
  }

  /** Every component of a scored job lies in [0,1], and so does its score. */
  lemma ScoreSpecInUnit(user: UserRecord, job: JobRecord, i: nat, docs: seq<string>,
                        body: Option<map<string, Json>>, toNumber: Json -> JsNumber, nlp: Nlp)
    requires ValidNlp(nlp) && i < |docs|
    ensures var e := ScoreSpec(user, job, i, docs, body, toNumber, nlp);
      InUnit(e.components) && 0.0 <= e.score <= 1.0
  {
    var c := ComponentsSpec(user, job, i, docs, body, toNumber, nlp);
    ComponentsSpecInUnit(user, job, i, docs, body, toNumber, nlp);
    FinalScoreInUnit(c);
  }

  /** Every scored job is an active job, with components and score in [0,1]. */
  lemma ResultsInUnit(user: UserRecord, active: seq<JobRecord>, body: Option<map<string, Json>>,
                      toNumber: Json -> JsNumber, nlp: Nlp)
    requires ValidNlp(nlp)
    ensures forall x :: x in Results(user, active, body, toNumber, nlp) ==>
      InUnit(x.components) && 0.0 <= x.score <= 1.0 && x.job in active
  {
    var docs := Corpus(user, active, nlp.stem);
    var rs := Results(user, active, body, toNumber, nlp);
    forall k | 0 <= k < |rs| ensures InUnit(rs[k].components) && 0.0 <= rs[k].score <= 1.0 && rs[k].job in active {
      ScoreSpecInUnit(user, active[k], k, docs, body, toNumber, nlp);
    }
  }

  /** A successful answer holds min(3, number of active jobs) entries, each an active job
      of the collection with a percentage in [0,100], in non-increasing order of percentage. */
  lemma RecommendAnswer(userId: Option<string>, users: seq<UserRecord>, jobs: seq<JobRecord>,
                        body: Option<map<string, Json>>, toNumber: Json -> JsNumber, nlp: Nlp)
    requires ValidNlp(nlp)
    requires RecommendSpec(userId, users, jobs, body, toNumber, nlp).Ok?
    ensures var top := RecommendSpec(userId, users, jobs, body, toNumber, nlp).value;
      var n := |ActiveJobs(jobs)|;
      && |top| == (if n < 3 then n else 3)
      && (forall k :: 0 <= k < |top| ==> top[k].job in jobs && top[k].job.status == "active")
      && (forall k :: 0 <= k < |top| ==> 0 <= top[k].scorePercent <= 100)
      && (forall k, m :: 0 <= k < m < |top| ==> top[k].scorePercent >= top[m].scorePercent)
  {
    var user := FindUser(users, userId.value).value;
    var active := ActiveJobs(jobs);
    var rs := Results(user, active, body, toNumber, nlp);
    assert RecommendSpec(userId, users, jobs, body, toNumber, nlp) == Ok(Top(SortDesc(rs)));
    ResultsInUnit(user, active, body, toNumber, nlp);
    TopSpec(rs, active);
    var top := Top(SortDesc(rs));
    forall k | 0 <= k < |top| ensures top[k].job in jobs && top[k].job.status == "active" {
      assert top[k].job in active;
    }
  }

  /** The cut of the sorted results: entries drawn from the results, with percentages in
      [0,100] that never increase. */
  lemma TopSpec(rs: seq<ScoredJob<JobRecord>>, active: seq<JobRecord>)
    requires forall x :: x in rs ==> 0.0 <= x.score <= 1.0 && x.job in active
    ensures var top := Top(SortDesc(rs));
      && (forall k :: 0 <= k < |top| ==> top[k].job in active && 0 <= top[k].scorePercent <= 100)
      && (forall k, m :: 0 <= k < m < |top| ==> top[k].scorePercent >= top[m].scorePercent)
  {
    var sorted := SortDesc(rs);
    var top := Top(sorted);
    SortDescSorted(rs);
    SortDescPermutes(rs);
    forall k | 0 <= k < |top| ensures top[k].job in active && 0 <= top[k].scorePercent <= 100 {
      assert sorted[k] in multiset(rs);
      ScorePercentSpec(sorted[k].score, sorted[k].score);
    }
    forall k, m | 0 <= k < m < |top| ensures top[k].scorePercent >= top[m].scorePercent {
      ScorePercentSpec(sorted[k].score, sorted[m].score);
    }
  }

  /** The three recommended jobs are the best: a scored job that is not among them scores
      no higher than any of them. */
  lemma RecommendBest(user: UserRecord, active: seq<JobRecord>, body: Option<map<string, Json>>,
                      toNumber: Json -> JsNumber, nlp: Nlp)
    requires ValidNlp(nlp)
    ensures var rs := Results(user, active, body, toNumber, nlp);
      var sorted := SortDesc(rs);
      var n := |Top(sorted)|;
      forall x, k :: x in rs && x !in sorted[..n] && 0 <= k < n ==> sorted[k].score >= x.score
  {
    var rs := Results(user, active, body, toNumber, nlp);
    var sorted := SortDesc(rs);
    var n := |Top(sorted)|;
    SortDescSorted(rs);
    SortDescPermutes(rs);
    forall x, k | x in rs && x !in sorted[..n] && 0 <= k < n ensures sorted[k].score >= x.score {
      assert x in multiset(sorted);
      var m :| 0 <= m < |sorted| && sorted[m] == x;
      assert forall q :: 0 <= q < n ==> sorted[q] in sorted[..n];
    }
  }
}

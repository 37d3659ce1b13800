/** The endpoints of backend/controllers/publicController.js: looking up a work verification by
    its QR token, and a worker applying to a job. */
module PublicController {
  import opened Outcomes
  import opened JsValues
  import opened Jobs

  /** A stored work verification; the rest of the record is carried as JSON. */
  datatype Verification = Verification(qrToken: string, record: Json)

  /** `getPublicVerification`: 400 without a token, 404 when no verification carries it,
      otherwise the first one that does. */
  function GetPublicVerification(qrToken: string, verifications: seq<Verification>)
    : (r: Outcome<Verification>)
    ensures r == Fail(BadRequest) <==> qrToken == ""
    ensures r == Fail(NotFound) <==>
      qrToken != "" && forall v :: v in verifications ==> v.qrToken != qrToken
    ensures r.Ok? ==> r.value in verifications && r.value.qrToken == qrToken
  {
    if qrToken == "" then Fail(BadRequest)
    else FindByToken(qrToken, verifications)
  }

  function FindByToken(qrToken: string, verifications: seq<Verification>)
    : (r: Outcome<Verification>)
    ensures r.Fail? <==> forall v :: v in verifications ==> v.qrToken != qrToken
    ensures r.Fail? ==> r.status == NotFound
    ensures r.Ok? ==> r.value in verifications && r.value.qrToken == qrToken
  {
    if verifications == [] then Fail(NotFound)
    else if verifications[0].qrToken == qrToken then Ok(verifications[0])
    else FindByToken(qrToken, verifications[1..])
  }

  /** Tokens are unique (the schema's unique index), so a token names one verification and the
      lookup returns exactly it. */
  lemma VerificationDetermined(qrToken: string, verifications: seq<Verification>, v: Verification)
    requires forall i, j :: 0 <= i < j < |verifications| ==> verifications[i].qrToken != verifications[j].qrToken
    requires v in verifications && v.qrToken == qrToken && qrToken != ""
    ensures GetPublicVerification(qrToken, verifications) == Ok(v)
  {
    var w := GetPublicVerification(qrToken, verifications).value;
    var i :| 0 <= i < |verifications| && verifications[i] == v;
    var j :| 0 <= j < |verifications| && verifications[j] == w;
    assert verifications[i].qrToken == verifications[j].qrToken;
  }

  /** `applyToJob`: 400 without a job id, 404 when no job has it; otherwise the job's own
      duplicate check and append. */
  method ApplyToJob(jobs: seq<Job>, jobId: string, userId: string, newId: string)
    returns (r: Outcome<string>)
    modifies Target(jobs, jobId, None)
    ensures jobId == "" ==> r == Fail(BadRequest)
    ensures jobId != "" && FindJob(jobs, jobId, None).None? ==> r == Fail(NotFound)
    ensures jobId != "" && FindJob(jobs, jobId, None).Some? ==>
      var job := FindJob(jobs, jobId, None).value;
      && ((exists a :: a in old(job.applicants) && a.worker == Some(userId)) ==>
            r == Fail(BadRequest) && job.applicants == old(job.applicants))
      && ((forall a :: a in old(job.applicants) ==> a.worker != Some(userId)) ==>
            r == Ok("Applied successfully") &&
            job.applicants == old(job.applicants) + [Applicant(newId, Some(userId), None)])
      && (DistinctWorkers(old(job.applicants)) ==> DistinctWorkers(job.applicants))
      && job.Fields() == old(job.Fields())
    ensures r.Fail? ==> unchanged(Target(jobs, jobId, None))
  {
    if jobId == "" {
      return Fail(BadRequest);
    }
    var found := FindJob(jobs, jobId, None);
    if found.None? {
      return Fail(NotFound);
    }
    r := found.value.Apply(userId, newId);
  }

  /** Applying twice: the second application is refused and leaves the first one alone. */
  method ApplyTwice(job: Job, userId: string, firstId: string, secondId: string)
    returns (first: Outcome<string>, second: Outcome<string>)
    modifies job
    ensures second == Fail(BadRequest)
    ensures |job.applicants| <= |old(job.applicants)| + 1
    ensures DistinctWorkers(old(job.applicants)) ==> DistinctWorkers(job.applicants)
  {
    first := job.Apply(userId, firstId);
    second := job.Apply(userId, secondId);
  }
}

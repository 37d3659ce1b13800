/** Posted jobs (backend/models/jobModel.js) and the in-place changes the controllers make to
    one: the employer's edit, the applicant status change and a worker's application. */
module Jobs {
  import opened Outcomes
  import opened JsValues

  /** One entry of `job.applicants`; `status` stays absent until an employer sets it. */
  datatype Applicant = Applicant(id: string, worker: Option<string>, status: Option<string>)

  /** The fields a job's owner may edit, as stored. */
  datatype JobFields = JobFields(title: Json, location: Json, salaryRange: Json,
                                 requiredSkills: Json, experience: Json, jobType: Json,
                                 description: Json, status: string)

  /** The job fields of a request body; `None` is a field the body leaves undefined. */
  datatype JobBody = JobBody(title: Option<Json>, location: Option<Json>, salaryRange: Option<Json>,
                             requiredSkills: Option<Json>, experience: Option<Json>,
                             jobType: Option<Json>, description: Option<Json>, status: Option<Json>)

  /** The statuses the job schema allows. */
  predicate ValidStatus(s: string) {
    s == "active" || s == "closed"
  }

  /** `status && ['active','closed'].includes(status)`: `includes` compares strictly. */
  predicate AllowedStatus(v: Option<Json>) {
    v == Some(JStr("active")) || v == Some(JStr("closed"))
  }

  /** `if (x) job.f = x`: the body's value when truthy, else the stored one. */
  function IfTruthy(stored: Json, v: Option<Json>): (r: Json)
    ensures r == stored || (Defined(v) && r == v.value)
    ensures Defined(v) ==> r == v.value
  {
    if Defined(v) then v.value else stored
  }

  /** `if (x !== undefined) job.f = x`: the body's value whenever present, even null or "". */
  function IfPresent(stored: Json, v: Option<Json>): (r: Json)
    ensures v.None? ==> r == stored
    ensures v.Some? ==> r == v.value
  {
    if v.Some? then v.value else stored
  }

  /** What `updateJob` leaves in the fields of a job it edits. */
  function Edited(f: JobFields, body: JobBody): (r: JobFields)
    ensures ValidStatus(f.status) ==> ValidStatus(r.status)
    ensures r.status != f.status ==> AllowedStatus(body.status) && r.status == body.status.value.s
  {
    JobFields(IfTruthy(f.title, body.title), IfTruthy(f.location, body.location),
              IfTruthy(f.salaryRange, body.salaryRange),
              IfTruthy(f.requiredSkills, body.requiredSkills),
              IfPresent(f.experience, body.experience), IfTruthy(f.jobType, body.jobType),
              IfPresent(f.description, body.description),
              if AllowedStatus(body.status) then body.status.value.s else f.status)
  }

  /** Sending the same edit twice changes nothing the first did not. */
  lemma EditIdempotent(f: JobFields, body: JobBody)
    ensures Edited(Edited(f, body), body) == Edited(f, body)
  {
  }

  /** A body with no field set, or only falsy values for the truthy-guarded fields and no
      experience or description, leaves the job as it was. */
  lemma EmptyEditKeeps(f: JobFields, body: JobBody)
    requires !Defined(body.title) && !Defined(body.location) && !Defined(body.salaryRange)
    requires !Defined(body.requiredSkills) && !Defined(body.jobType)
    requires body.experience.None? && body.description.None? && !AllowedStatus(body.status)
    ensures Edited(f, body) == f
  {
  }

  /** An empty array or object is truthy, so it does overwrite a job's skills or salary range,
      while an empty string leaves the title alone. */
  lemma TruthyEmptyValues(f: JobFields)
    ensures Edited(f, JobBody(Some(JStr("")), None, Some(JObj([])), Some(JArr([])), None, None,
                              None, None))
         == f.(salaryRange := JObj([]), requiredSkills := JArr([]))
  {
  }

  /** A status outside the whitelist is ignored, whatever else the body changes. */
  lemma StatusWhitelist(f: JobFields, body: JobBody)
    ensures Edited(f, body).status == f.status || ValidStatus(Edited(f, body).status)
    ensures body.status == Some(JStr("archived")) ==> Edited(f, body).status == f.status
  {
  }

  /** The first applicant whose subdocument id is `key`; failing that, the first one whose
      id or worker, as a string, is `key` (a missing worker reads as "undefined"). */
  function FindApplicant(apps: seq<Applicant>, key: string): (r: Option<nat>)
    ensures r.Some? ==> r.value < |apps|
    ensures r.Some? ==> apps[r.value].id == key || WorkerText(apps[r.value]) == key
    ensures r.None? <==> forall i :: 0 <= i < |apps| ==> apps[i].id != key && WorkerText(apps[i]) != key
    ensures (exists i :: 0 <= i < |apps| && apps[i].id == key) ==> r.Some? && apps[r.value].id == key
  {
    match FirstIndex(apps, key, false)
    case Some(i) => Some(i)
    case None => FirstIndex(apps, key, true)
  }

  /** `String(a.worker)`. */
  function WorkerText(a: Applicant): string {
    if a.worker.Some? then a.worker.value else "undefined"
  }

  /** The first applicant whose id is `key`, or, when `orWorker` holds, whose id or worker is. */
  function FirstIndex(apps: seq<Applicant>, key: string, orWorker: bool): (r: Option<nat>)
    ensures r.Some? ==> r.value < |apps|
    ensures r.Some? ==> apps[r.value].id == key || (orWorker && WorkerText(apps[r.value]) == key)
    ensures r.None? <==> forall i :: 0 <= i < |apps| ==>
      apps[i].id != key && (!orWorker || WorkerText(apps[i]) != key)
  {
    if apps == [] then None
    else if apps[0].id == key || (orWorker && WorkerText(apps[0]) == key) then Some(0)
    else match FirstIndex(apps[1..], key, orWorker)
      case None => None
      case Some(i) => Some(i + 1)
  }

  /** The applicants with the one at `k` given status `s`, as the controller intends. */
  function WithStatus(apps: seq<Applicant>, k: nat, s: string): (r: seq<Applicant>)
    requires k < |apps|
    ensures |r| == |apps| && r[k].status == Some(s)
    ensures forall i :: 0 <= i < |apps| && i != k ==> r[i] == apps[i]
    ensures r[k].id == apps[k].id && r[k].worker == apps[k].worker
  {
    apps[k := apps[k].(status := Some(s))]
  }

  /** What `job.save()` stores after `applicant.status = status` as written: the applicant
      schema declares only `worker` and `appliedAt`, so strict mode drops `status` and the
      stored applicants are those loaded. */
  function SavedAsWritten(apps: seq<Applicant>, k: nat, s: string): seq<Applicant>
    requires k < |apps|
  {
    apps
  }

  /** An employer accepts an applicant who has no status yet: the intended update stores
      "accepted", while as written the stored applicant still has no status. */
  lemma StatusNotSavedAsWritten()
    ensures var apps := [Applicant("a1", Some("w1"), None)];
      && SavedAsWritten(apps, 0, "accepted")[0].status.None?
      && WithStatus(apps, 0, "accepted")[0].status == Some("accepted")
  {
  }

  /** No worker appears twice among the applicants. */
  predicate DistinctWorkers(apps: seq<Applicant>) {
    forall i, j :: 0 <= i < j < |apps| && apps[i].worker.Some? ==> apps[i].worker != apps[j].worker
  }

  /** A job stored in the `posted_jobs` collection. */
  class Job {
    const id: string
    const employer: string
    var title: Json
    var location: Json
    var salaryRange: Json
    var requiredSkills: Json
    var experience: Json
    var jobType: Json
    var description: Json
    var status: string
    var applicants: seq<Applicant>

    function Fields(): JobFields
      reads this
    {
      JobFields(title, location, salaryRange, requiredSkills, experience, jobType, description, status)
    }

    constructor (id: string, employer: string, f: JobFields)
      ensures this.id == id && this.employer == employer
      ensures Fields() == f && applicants == []
    {
      this.id, this.employer := id, employer;
      title, location, salaryRange, requiredSkills := f.title, f.location, f.salaryRange, f.requiredSkills;
      experience, jobType, description, status := f.experience, f.jobType, f.description, f.status;
      applicants := [];
    }

    /** `updateJob`'s field assignments on a job the employer owns. */
    method Edit(body: JobBody)
      modifies this
      ensures Fields() == Edited(old(Fields()), body)
      ensures applicants == old(applicants)
    {
      title := IfTruthy(title, body.title);
      location := IfTruthy(location, body.location);
      salaryRange := IfTruthy(salaryRange, body.salaryRange);
      requiredSkills := IfTruthy(requiredSkills, body.requiredSkills);
      experience := IfPresent(experience, body.experience);
      jobType := IfTruthy(jobType, body.jobType);
      description := IfPresent(description, body.description);
      if AllowedStatus(body.status) { status := body.status.value.s; }
    }

    /** `applicant.status = status` on the applicant at `k`. */
    method SetApplicantStatus(k: nat, s: string)
      requires k < |applicants|
      modifies this
      ensures applicants == WithStatus(old(applicants), k, s)
      ensures Fields() == old(Fields())
    {
      applicants := applicants[k := applicants[k].(status := Some(s))];
    }

    /** `applyToJob` on a job that exists: 400 and no change when `userId` has already
        applied, otherwise one new applicant entry for `userId` at the end. */
    method Apply(userId: string, newId: string) returns (r: Outcome<string>)
      modifies this
      ensures (exists a :: a in old(applicants) && a.worker == Some(userId)) ==>
        r == Fail(BadRequest) && applicants == old(applicants)
      ensures (forall a :: a in old(applicants) ==> a.worker != Some(userId)) ==>
        r == Ok("Applied successfully") &&
        applicants == old(applicants) + [Applicant(newId, Some(userId), None)]
      ensures DistinctWorkers(old(applicants)) ==> DistinctWorkers(applicants)
      ensures exists a :: a in applicants && a.worker == Some(userId)
      ensures Fields() == old(Fields())
      ensures r.Fail? ==> unchanged(this)
    {
      var i := 0;
      while i < |applicants|
        invariant 0 <= i <= |applicants|
        invariant forall j :: 0 <= j < i ==> applicants[j].worker != Some(userId)
      {
        if applicants[i].worker == Some(userId) {
          return Fail(BadRequest);
        }
        i := i + 1;
      }
      applicants := applicants + [Applicant(newId, Some(userId), None)];
      r := Ok("Applied successfully");
    }
  }

  /** `findOne({ _id: jobId, employer })` when `employer` is given, `findById(jobId)` when not:
      the first job that matches. */
  function FindJob(jobs: seq<Job>, jobId: string, employer: Option<string>): (r: Option<Job>)
    ensures r.Some? ==> r.value in jobs && r.value.id == jobId
    ensures r.Some? && employer.Some? ==> r.value.employer == employer.value
    ensures r.None? <==> forall j :: j in jobs ==>
      j.id != jobId || (employer.Some? && j.employer != employer.value)
  {
    if jobs == [] then None
    else if jobs[0].id == jobId && (employer.None? || jobs[0].employer == employer.value) then Some(jobs[0])
    else FindJob(jobs[1..], jobId, employer)
  }

  /** The set of objects a request on `FindJob(jobs, jobId, employer)` may change. */
  function Target(jobs: seq<Job>, jobId: string, employer: Option<string>): set<Job> {
    if FindJob(jobs, jobId, employer).Some? then {FindJob(jobs, jobId, employer).value} else {}
  }
}

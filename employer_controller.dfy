/** The employer endpoints of backend/controllers/employerController.js: registration, the
    profile edit, job posting behind the verified-documents gate, job edits, applicant status
    changes and the dashboard's document counts. Login is `Accounts.Login` and the document
    upload is `Documents.DocumentStore.Upload`, both shared with the worker endpoints. */
module EmployerController {
  import opened Outcomes
  import opened JsValues
  import opened Accounts
  import opened Documents
  import opened Jobs

  /** `registerEmployer`: the shared registration guards; a new employer is never active. */
  function RegisterEmployer(accounts: seq<Account>, company: string, email: string, password: string,
                            isEmail: string -> bool, hash: string -> string)
    : (r: Outcome<seq<Account>>)
    ensures r.Fail? <==> Malformed(company, email, password, isEmail) ||
                         exists a :: a in accounts && a.email == email
    ensures r.Ok? ==> |r.value| == |accounts| + 1 && r.value[..|accounts|] == accounts
    ensures r.Ok? ==> r.value[|accounts|] == Account(email, hash(password), false, EmployerProfile(company))
  {
    Register(accounts, company, email, password, EmployerProfile(company), isEmail, hash)
  }

  /** The profile fields an employer may change. */
  const EditableProfile: set<string> := {"company", "phone", "address", "industry", "location"}

  /** `updateProfile`'s `updateData`: each editable field the body gives a truthy value, and
      nothing else, so email, password and `isActive` can never be changed this way. */
  method ProfileUpdate(body: map<string, Json>) returns (data: map<string, Json>)
    ensures forall k :: k in data <==> k in EditableProfile && Defined(Field(body, k))
    ensures forall k :: k in data ==> k in body && data[k] == body[k]
    ensures "email" !in data && "password" !in data && "isActive" !in data
  {
    data := map[];
    if Defined(Field(body, "company")) { data := data["company" := body["company"]]; }
    if Defined(Field(body, "phone")) { data := data["phone" := body["phone"]]; }
    if Defined(Field(body, "address")) { data := data["address" := body["address"]]; }
    if Defined(Field(body, "industry")) { data := data["industry" := body["industry"]]; }
    if Defined(Field(body, "location")) { data := data["location" := body["location"]]; }
  }

  /** `createJob`: 400 without a truthy title, location and job type; 403 unless the employer
      has documents and all are verified; otherwise the new job's fields, with `{}`, `[]`, ""
      and "" for a missing salary range, skill list, experience and description, and the
      schema's default status. */
  function CreateJob(employerId: string, body: JobBody, documents: seq<Document>)
    : (r: Outcome<JobFields>)
    ensures r == Fail(BadRequest) <==>
      !Defined(body.title) || !Defined(body.location) || !Defined(body.jobType)
    ensures r == Fail(Forbidden) <==>
      Defined(body.title) && Defined(body.location) && Defined(body.jobType) &&
      !CanPostJobs(OwnedBy(documents, employerId))
    ensures r.Ok? ==> r.value.title == body.title.value && r.value.location == body.location.value
    ensures r.Ok? ==> r.value.jobType == body.jobType.value && r.value.status == "active"
    ensures r.Ok? && !Defined(body.salaryRange) ==> r.value.salaryRange == JObj([])
    ensures r.Ok? && !Defined(body.requiredSkills) ==> r.value.requiredSkills == JArr([])
    ensures r.Ok? && !Defined(body.experience) ==> r.value.experience == JStr("")
    ensures r.Ok? && !Defined(body.description) ==> r.value.description == JStr("")
    ensures r.Ok? && Defined(body.salaryRange) ==> r.value.salaryRange == body.salaryRange.value
    ensures r.Ok? && Defined(body.requiredSkills) ==> r.value.requiredSkills == body.requiredSkills.value
    ensures r.Ok? && Defined(body.experience) ==> r.value.experience == body.experience.value
    ensures r.Ok? && Defined(body.description) ==> r.value.description == body.description.value
  {
    if !Defined(body.title) || !Defined(body.location) || !Defined(body.jobType) then
      Fail(BadRequest)
    else if !CanPostJobs(OwnedBy(documents, employerId)) then Fail(Forbidden)
    else Ok(JobFields(body.title.value, body.location.value,
                      IfTruthy(JObj([]), body.salaryRange), IfTruthy(JArr([]), body.requiredSkills),
                      IfTruthy(JStr(""), body.experience), body.jobType.value,
                      IfTruthy(JStr(""), body.description), "active"))
  }

  /** A job is posted only when the dashboard would show every one of the employer's
      documents verified, and at least one uploaded. */
  lemma CreateJobNeedsAllVerified(employerId: string, body: JobBody, documents: seq<Document>)
    requires CreateJob(employerId, body, documents).Ok?
    ensures 0 < DashboardDocuments(documents, employerId).verified
    ensures DashboardDocuments(documents, employerId).verified ==
            DashboardDocuments(documents, employerId).uploaded
  {
    GateMatchesDashboard(OwnedBy(documents, employerId));
  }

  /** Uploading or replacing a document blocks job posting until it is verified, whatever the
      request body holds. */
  lemma UploadBlocksPosting(documents: seq<Document>, d: Document, body: JobBody)
    requires d.status == "pending"
    ensures CreateJob(d.owner, body, AfterUpload(documents, d)).Fail?
  {
    UploadClosesGate(documents, d);
  }

  /** A posted job's status stays in the schema's enumeration through any edits. */
  lemma CreatedStatusStaysValid(employerId: string, body: JobBody, documents: seq<Document>,
                                edits: seq<JobBody>)
    requires CreateJob(employerId, body, documents).Ok?
    ensures ValidStatus(EditAll(CreateJob(employerId, body, documents).value, edits).status)
  {
    EditAllKeepsStatus(CreateJob(employerId, body, documents).value, edits);
  }

  /** A run of edits, oldest first. */
  function EditAll(f: JobFields, edits: seq<JobBody>): JobFields
    decreases |edits|
  {
    if edits == [] then f else EditAll(Edited(f, edits[0]), edits[1..])
  }

  lemma {:induction false} EditAllKeepsStatus(f: JobFields, edits: seq<JobBody>)
    requires ValidStatus(f.status)
    ensures ValidStatus(EditAll(f, edits).status)
    decreases |edits|
  {
    if edits != [] {
      EditAllKeepsStatus(Edited(f, edits[0]), edits[1..]);
    }
  }

  /** `updateJob`: 404 unless the employer owns a job with that id; otherwise that job's fields
      become `Edited(..)` of the old ones, its applicants untouched. */
  method UpdateJob(jobs: seq<Job>, jobId: string, employerId: string, body: JobBody)
    returns (r: Outcome<Job>)
    modifies Target(jobs, jobId, Some(employerId))
    ensures FindJob(jobs, jobId, Some(employerId)).None? ==> r == Fail(NotFound)
    ensures FindJob(jobs, jobId, Some(employerId)).Some? ==>
      r == Ok(FindJob(jobs, jobId, Some(employerId)).value)
    ensures r.Ok? ==> r.value.Fields() == Edited(old(r.value.Fields()), body)
    ensures r.Ok? ==> r.value.applicants == old(r.value.applicants)
  {
    var found := FindJob(jobs, jobId, Some(employerId));
    if found.None? {
      return Fail(NotFound);
    }
    var job := found.value;
    job.Edit(body);
    r := Ok(job);
  }

  /** The statuses `updateApplicantStatus` accepts, compared strictly. */
  predicate ApplicantStatus(v: Option<Json>) {
    v == Some(JStr("accepted")) || v == Some(JStr("rejected")) || v == Some(JStr("applied"))
  }

  /** `updateApplicantStatus`: 400 for any other status before anything is looked up; 404
      unless the employer owns the job and it has an applicant matching `key`; otherwise that
      applicant's status is set and nothing else changes. */
  method UpdateApplicantStatus(jobs: seq<Job>, jobId: string, employerId: string, key: string,
                               status: Option<Json>)
    returns (r: Outcome<Applicant>)
    modifies Target(jobs, jobId, Some(employerId))
    ensures !ApplicantStatus(status) ==> r == Fail(BadRequest)
    ensures ApplicantStatus(status) && FindJob(jobs, jobId, Some(employerId)).None? ==>
      r == Fail(NotFound)
    ensures r.Fail? ==> unchanged(Target(jobs, jobId, Some(employerId)))
    ensures r.Ok? ==> ApplicantStatus(status) && FindJob(jobs, jobId, Some(employerId)).Some?
    ensures r.Ok? ==>
      var job := FindJob(jobs, jobId, Some(employerId)).value;
      var k := FindApplicant(old(job.applicants), key);
      k.Some? && r.value == old(job.applicants)[k.value].(status := Some(status.value.s)) &&
      job.applicants == old(job.applicants)[k.value := r.value] && job.Fields() == old(job.Fields())
    ensures (ApplicantStatus(status) && FindJob(jobs, jobId, Some(employerId)).Some? &&
             FindApplicant(old(FindJob(jobs, jobId, Some(employerId)).value.applicants), key).None?)
            ==> r == Fail(NotFound)
  {
    if !ApplicantStatus(status) {
      return Fail(BadRequest);
    }
    var found := FindJob(jobs, jobId, Some(employerId));
    if found.None? {
      return Fail(NotFound);
    }
    var job := found.value;
    var k := FindApplicant(job.applicants, key);
    if k.None? {
      return Fail(NotFound);
    }
    job.SetApplicantStatus(k.value, status.value.s);
    r := Ok(job.applicants[k.value]);
  }

  /** The dashboard's document counts. */
  datatype DocumentStats = DocumentStats(uploaded: nat, verified: nat)

  /** `getDashboardStats`: how many documents the employer uploaded and how many are verified;
      never more verified than uploaded, and all verified exactly when the gate is open. */
  function DashboardDocuments(documents: seq<Document>, employerId: string): (r: DocumentStats)
    ensures r.verified <= r.uploaded
    ensures 0 < r.verified == r.uploaded <==> CanPostJobs(OwnedBy(documents, employerId))
  {
    var mine := OwnedBy(documents, employerId);
    GateMatchesDashboard(mine);
    DocumentStats(|mine|, VerifiedCount(mine))
  }
}

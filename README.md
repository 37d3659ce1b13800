# Digi-Saarathi: a verified model of the core

Digi-Saarathi connects informal workers with employers and with government welfare
schemes. This project models the parts of it that decide something, and proves what they
promise:

- **Job recommendation engine** (`backend/controllers/jobRecommendation.js`). It scores
  every active job against the signed-in worker and answers with the best three. The
  score has five components:
  - TF-IDF cosine similarity (`Cosine`);
  - a greedy one-to-one fuzzy skill matcher (`SkillMatch`);
  - years of experience parsed from free text (`JobScores`);
  - a location heuristic (`JobScores`);
  - salary-range fit with a request override (`JobScores`).

  Tokenising lives in `RecommendText`. The weighted sum is in `JobScores`, the stable
  descending sort in `Ranking`, and the endpoint in `Recommendation`.
- **The search box's salary preference** (`frontend/src/components/AIJobSearchBox.jsx`),
  in `SearchBox`.
- **The scheme record normaliser** (`backend/scripts/mappers/commonMapper.js`), in
  `CommonMapper`.
- **The scheme list's filters, category buttons and labels**
  (`frontend/src/pages/Schemes.jsx`), in `Schemes`.
- **The controllers' record rules**, with every database read or write replaced by a
  sequence of records or an object updated in place:
  - registration and login, shared by workers and employers (`Accounts`);
  - documents, with replace-by-type upload, owner-only delete and the verified-documents
    gate (`Documents`, class `DocumentStore`);
  - posted jobs, edited in place, with applicant status changes and duplicate-free
    applications (`Jobs`, class `Job`);
  - the endpoints themselves (`EmployerController`, `UserController`, `PublicController`).

Shared helpers:
- `Text`: ASCII case mapping, JavaScript's white space, trimming, `includes`, `join`.
- `Outcomes`: `Ok(value)` or `Fail(status)`, where the status is one of 400, 401, 403, 404
  and 409.
- `JsValues`: JSON values, JavaScript truthiness and `Number`.

Foreign code is passed in as function-valued parameters, each with the range it is known
to have:
- the `natural` library's Porter stemmer, Jaro-Winkler similarity and TF-IDF term lists,
  and `Math.sqrt` (the record `Nlp`);
- `validator.isEmail`, bcrypt's hash and compare, `Number(..)`, `new Date(..)` and
  `JSON.stringify`.

Numbers are `real`. A request field that is missing and one that is empty are both `""`,
as the source's `x || ''` fallbacks make them. New record ids are parameters (`newId`).

## Model

| member | source | states |
|---|---|---|
| RecommendText.Clean | backend/controllers/jobRecommendation.js:45-47 | the cleaned text keeps the input's length and holds only a-z, 0-9 and white space |
| RecommendText.WordsSpec | backend/controllers/jobRecommendation.js:48-49 | splitting on white space and dropping empties yields words with no white space whose concatenation is the input without its white space |
| RecommendText.TokenizeSpec | backend/controllers/jobRecommendation.js:44-50 | every token is non-empty and made of a-z and 0-9 only, and the tokens together are exactly the non-space characters of the cleaned text |
| RecommendText.WordsOfJoin | backend/controllers/jobRecommendation.js:55 | joining words with single spaces and splitting again gives back the same words |
| RecommendText.NormalizeAndStemWords | backend/controllers/jobRecommendation.js:53-56 | when the stemmer maps words to words, the stemmed text splits into exactly the stems of the tokens, in order |
| Cosine.MapAndSquares | backend/controllers/jobRecommendation.js:15-22 | the loop builds the term-to-weight map and the sum of squared weights |
| Cosine.WeightMapAt | backend/controllers/jobRecommendation.js:16 | with distinct terms, every listed term maps to its own weight |
| Cosine.DotProduct | backend/controllers/jobRecommendation.js:26-29 | the loop over A's terms is NaN exactly when one of them is missing from B's map and names a function `Object.prototype` provides, and otherwise sums the products of the truthy weights the documents share |
| Cosine.DotAsWrittenSpec | backend/controllers/jobRecommendation.js:26-29 | the dot as written is NaN exactly when a term of A reads an inherited function from B's map, and otherwise equals the dot product over own terms |
| Cosine.CosineTfidf | backend/controllers/jobRecommendation.js:6-32 | the similarity is NaN exactly when both sums of squares are non-zero and a term of A reads an inherited function from B's map; otherwise it is the cosine over own terms, in [0,1] |
| Cosine.CosineAsWrittenSpec | backend/controllers/jobRecommendation.js:24-31 | 0 for a zero norm; NaN exactly when a term of A reads an inherited function; otherwise the cosine over own terms, in [0,1] |
| Cosine.CosineOrZero | backend/controllers/jobRecommendation.js:122 | `cosineTfidf(..) \|\| 0` is 0 when a term of A reads an inherited function, and otherwise the cosine over own terms; always in [0,1] |
| Cosine.ConstructorTermZeroes | backend/controllers/jobRecommendation.js:11-31 | a job term "constructor" missing from the worker's terms makes the cosine NaN and the component 0, while the cosine over own terms is positive |
| Cosine.DotBound | backend/controllers/jobRecommendation.js:26-31 | Cauchy-Schwarz over distinct non-negative weights: dot squared is at most A's sum of squares times B's weight on A's terms |
| Cosine.CosineBounds | backend/controllers/jobRecommendation.js:24-31 | the cosine lies in [0,1] for any two well-formed term lists |
| SkillMatch.NormalizeSkills | backend/controllers/jobRecommendation.js:60-61 | normalising yields exactly one entry per skill, in order |
| SkillMatch.BestUnclaimed | backend/controllers/jobRecommendation.js:67-73 | the inner loop computes the best unclaimed index (-1 and score 0 if none is above 0) |
| SkillMatch.BestSpec | backend/controllers/jobRecommendation.js:67-73 | the selected index is unclaimed, scores at least every unclaimed index, and is the first to reach that score because the comparison is strict |
| SkillMatch.GreedyMatch | backend/controllers/jobRecommendation.js:64-78 | the outer loop computes the greedy matching, one step per worker skill |
| SkillMatch.GreedyInvariant | backend/controllers/jobRecommendation.js:64-78 | `used` holds exactly `matches` valid job-skill indices, so each is claimed at most once, and matches never exceed the worker skills seen |
| SkillMatch.StepInvariant | backend/controllers/jobRecommendation.js:74-77 | one worker skill claims at most one new, valid index |
| SkillMatch.MatchesBound | backend/controllers/jobRecommendation.js:64-78 | matches are at most min(number of worker skills, number of job skills) |
| SkillMatch.NoSimilarPairNoMatch | backend/controllers/jobRecommendation.js:74 | when no pair reaches the threshold, nothing is matched and nothing is claimed |
| SkillMatch.FuzzySkillScore | backend/controllers/jobRecommendation.js:59-81 | the method returns the specified score (0 for two empty lists, else min(1, matches / distinct skills)) and it lies in [0,1] |
| SkillMatch.FuzzyBounds | backend/controllers/jobRecommendation.js:62-80 | the score is in [0,1] for all inputs and 0 when both lists are empty |
| SkillMatch.HalfOverlapExample | backend/controllers/jobRecommendation.js:59-81 | one shared skill out of two distinct skills scores 0.5 |
| SkillMatch.CapReachedExample | backend/controllers/jobRecommendation.js:79-80 | duplicated skills reach the cap: two matches over one distinct skill give exactly 1 |
| SkillMatch.JaccardBounds | backend/controllers/jobRecommendation.js:34-41 | the unused Jaccard overlap lies in [0,1] and is symmetric |
| SkillMatch.JaccardOne | backend/controllers/jobRecommendation.js:37-40 | the Jaccard overlap is 1 exactly when both lists hold the same normalised skills and are not both empty |
| JobScores.DigitRunEnd | backend/controllers/jobRecommendation.js:85 | a digit run ends at the first non-digit |
| JobScores.Numbers | backend/controllers/jobRecommendation.js:85-88 | the numbers found are non-negative, and there are none exactly when the text has no digit |
| JobScores.MaxOfSpec | backend/controllers/jobRecommendation.js:89 | the maximum is one of the numbers and no number exceeds it |
| JobScores.ParseYearsSpec | backend/controllers/jobRecommendation.js:83-90 | null exactly when the text has no digit; otherwise the largest number found, which is non-negative |
| JobScores.ParseYearsRangeExample | backend/controllers/jobRecommendation.js:85-89 | "2-3 years" gives 3 |
| JobScores.ParseYearsFractionExample | backend/controllers/jobRecommendation.js:85 | "1.5 yrs" gives 1.5, since a fractional part belongs to the number |
| JobScores.ParseYearsNoDigitExample | backend/controllers/jobRecommendation.js:86 | "fresher" gives null |
| JobScores.ExperienceScoreSpec | backend/controllers/jobRecommendation.js:127-134 | the experience score lies in [0,1], is 0.5 unless both years are known, and is 1 exactly when both are known and equal |
| JobScores.ExperienceScoreMonotone | backend/controllers/jobRecommendation.js:131-134 | for a fixed job, a worker nearer the job's years never scores lower |
| JobScores.LocationScoreSpec | backend/controllers/jobRecommendation.js:136-146 | the location score is one of 0, 0.5, 0.6, 1 and symmetric; 0.5 exactly when either side is empty; 1 exactly on case-insensitive equality; 0.6 exactly when they differ but one contains the other |
| JobScores.LocationScoreExample | backend/controllers/jobRecommendation.js:141-142 | "Pune" against "pune, Maharashtra" scores 0.6: no trimming, containment after lower-casing |
| JobScores.PreferenceOrder | backend/controllers/jobRecommendation.js:151-152 | the preference is resolved in order: a numeric body preference; else the mean of both bounds or the single bound; and the profile's value whenever the body yields no number |
| JobScores.PreferenceWithoutBody | backend/controllers/jobRecommendation.js:151-152 | without a request body the profile's preference is used |
| JobScores.SalaryScoreSpec | backend/controllers/jobRecommendation.js:148-157 | the salary score lies in [0,1]; it is 0.5 without a truthy preference and minimum, and 1 inside [min, max] or when the job has no maximum |
| JobScores.SalaryScoreOutside | backend/controllers/jobRecommendation.js:155-156 | outside the range, a preference of at least 1 loses its relative distance to the nearer bound, clamped at 0 |
| JobScores.FinalScoreInUnit | backend/controllers/jobRecommendation.js:159-168 | components in [0,1] give a weighted score in [0,1] |
| JobScores.FinalScoreConstant | backend/controllers/jobRecommendation.js:160-168 | the weights 0.45, 0.20, 0.20, 0.10 and 0.05 sum to 1 |
| JobScores.FinalScoreMonotone | backend/controllers/jobRecommendation.js:168 | raising any component never lowers the score |
| Ranking.InsertAt | backend/controllers/jobRecommendation.js:184 | one insertion step on the array inserts element i into the sorted prefix and leaves the rest alone |
| Ranking.SortByScore | backend/controllers/jobRecommendation.js:184 | the in-place sort leaves the array equal to the specification sort of its old contents |
| Ranking.InsertSorted | backend/controllers/jobRecommendation.js:184 | inserting into a sorted list keeps it sorted and adds nothing else |
| Ranking.SortDescSorted | backend/controllers/jobRecommendation.js:184 | the sorted results are in non-increasing order of score |
| Ranking.SortDescPermutes | backend/controllers/jobRecommendation.js:184 | sorting is a permutation of the results |
| Ranking.SortDescStable | backend/controllers/jobRecommendation.js:184 | the sort is stable: results with equal score keep their fetch order |
| Ranking.TiesKeepOrder | backend/controllers/jobRecommendation.js:184 | two results with equal score stay in fetch order |
| Ranking.ScorePercentSpec | backend/controllers/jobRecommendation.js:185 | a score in [0,1] becomes a percentage in [0,100], and rounding keeps the order of scores |
| Recommendation.ActiveJobs | backend/controllers/jobRecommendation.js:101 | exactly the jobs whose status is "active", in fetch order |
| Recommendation.FindUser | backend/controllers/jobRecommendation.js:98-99 | a user with that id, or none exactly when no user has it |
| Recommendation.Corpus | backend/controllers/jobRecommendation.js:104-117 | one document per active job, then the worker's, so the worker's document is last |
| Recommendation.ExperienceProximity | backend/controllers/jobRecommendation.js:127-134 | the experience block computes the experience score of the parsed years and it lies in [0,1] |
| Recommendation.LocationMatch | backend/controllers/jobRecommendation.js:136-146 | the location block computes the location score and it lies in [0,1] |
| Recommendation.SalaryMatch | backend/controllers/jobRecommendation.js:148-157 | the salary block computes the salary score and it lies in [0,1] |
| Recommendation.ScoreJob | backend/controllers/jobRecommendation.js:120-181 | one job's entry holds its five components and their weighted sum; the TF-IDF component is the cosine over own terms, or 0 when line 122's `\|\| 0` replaces a NaN; components and score lie in [0,1] |
| Recommendation.ResultsStep | backend/controllers/jobRecommendation.js:120 | the results for the first i+1 jobs extend those for the first i by job i's entry |
| Recommendation.GetJobRecommendations | backend/controllers/jobRecommendation.js:93-187 | the endpoint: 401 without a user id, 404 for an unknown user, otherwise the top three of the sorted scored active jobs |
| Recommendation.RecommendErrors | backend/controllers/jobRecommendation.js:95-99 | 401 exactly when there is no user id, 404 exactly when the user is unknown, and both are decided without looking at any job |
| Recommendation.ComponentsSpecInUnit | backend/controllers/jobRecommendation.js:122-157 | every component of every job lies in [0,1] |
| Recommendation.ScoreSpecInUnit | backend/controllers/jobRecommendation.js:168 | a scored job's components and score lie in [0,1] |
| Recommendation.ResultsInUnit | backend/controllers/jobRecommendation.js:120-181 | every result is an active job with components and score in [0,1] |
| Recommendation.TopSpec | backend/controllers/jobRecommendation.js:184-185 | the cut holds results with percentages in [0,100] that never increase |
| Recommendation.RecommendAnswer | backend/controllers/jobRecommendation.js:184-187 | a successful answer has min(3, number of active jobs) entries, each an active job of the collection, with percentages in [0,100] in non-increasing order |
| Recommendation.RecommendBest | backend/controllers/jobRecommendation.js:184-185 | every result left out of the top three scores no higher than each of the three |
| SearchBox.RunSearch | frontend/src/components/AIJobSearchBox.jsx:31-44 | no request without a user token; otherwise the body the conditional assignments build |
| SearchBox.NoUsableBound | frontend/src/components/AIJobSearchBox.jsx:40-44 | empty inputs, 0 and NaN count as absent; with neither bound usable the body has no salary preference |
| SearchBox.SingleBound | frontend/src/components/AIJobSearchBox.jsx:43-44 | with only one usable bound, the body's preference is that bound |
| SearchBox.MeanBetweenWholeBounds | frontend/src/components/AIJobSearchBox.jsx:42 | for whole-number bounds the rounded mean lies between them |
| SearchBox.MeanBelowFractionalBounds | frontend/src/components/AIJobSearchBox.jsx:42 | for fractional bounds the rounded mean can fall outside them: 1.2 and 1.3 give 1 |
| SearchBox.BackendReadsSentPreference | frontend/src/components/AIJobSearchBox.jsx:39-44 | the engine resolves exactly the preference the box sends, or none when none is sent |
| CommonMapper.Own | backend/scripts/mappers/commonMapper.js:6 | the exact-case own property, if any |
| CommonMapper.CaseFind | backend/scripts/mappers/commonMapper.js:8-9 | the first property equal to the key up to case, if any |
| CommonMapper.OwnIsFound | backend/scripts/mappers/commonMapper.js:6-9 | a key that is an own property is always found up to case |
| CommonMapper.GetSpec | backend/scripts/mappers/commonMapper.js:3-12 | `get` is undefined exactly when no non-empty candidate names a property, even up to case; otherwise it answers for the first non-empty candidate found up to case, with its non-null exact-key value or else the value under the first key equal to it up to case, null included |
| CommonMapper.GetStopsAtFirstFound | backend/scripts/mappers/commonMapper.js:6-9 | once a candidate is found, even up to case and even with a null value, later candidates are not tried |
| CommonMapper.GetSkipsEmpty | backend/scripts/mappers/commonMapper.js:5 | an empty candidate is skipped |
| CommonMapper.NullNameHidesTitle | backend/scripts/mappers/commonMapper.js:6-9 | a null `name` beats a string `title` |
| CommonMapper.AsString | backend/scripts/mappers/commonMapper.js:27-31 | a value is kept exactly when it is a string |
| CommonMapper.MapCommonFails | backend/scripts/mappers/commonMapper.js:14-26 | the mapping fails (the stringify of undefined throws) exactly when no name candidate is found |
| CommonMapper.NameTextSpec | backend/scripts/mappers/commonMapper.js:26 | a string name is kept; any other becomes at most 200 characters, a prefix of its JSON text |
| CommonMapper.MapCommonName | backend/scripts/mappers/commonMapper.js:14-26 | the mapped name is the found string name, or at most 200 characters of the found value's JSON text |
| CommonMapper.MapCommonFallbacks | backend/scripts/mappers/commonMapper.js:15-18 | the short description falls back to a string name, the info link to the apply link |
| CommonMapper.MapCommonStrings | backend/scripts/mappers/commonMapper.js:16-31 | full description, apply link and eligibility text are present exactly when the value found is a string |
| CommonMapper.AsArraySpec | backend/scripts/mappers/commonMapper.js:20-33 | arrays are kept, other truthy values wrapped, falsy ones become [] |
| CommonMapper.MapCommonScopeState | backend/scripts/mappers/commonMapper.js:22-23 | scope is the source's, else the record's, else "central", and is never falsy; state is the source's, else the record's, else undefined |
| Schemes.FilteredSpec | frontend/src/pages/Schemes.jsx:166-171 | a scheme is listed exactly when it is in the list and passes the tab, search and category tests; the list never grows |
| Schemes.FilteredAppend | frontend/src/pages/Schemes.jsx:166-171 | filtering distributes over concatenation, so the original order is kept |
| Schemes.NoFilterShowsAll | frontend/src/pages/Schemes.jsx:166-171 | the 'all' tab with a blank search and no category lists every scheme, in order |
| Schemes.AllTabIgnoresEligibility | frontend/src/pages/Schemes.jsx:167 | on the 'all' tab only search and category decide |
| Schemes.StateFilter | frontend/src/pages/Schemes.jsx:145-151 | with a state query, a scheme passes exactly when it is central or unscoped, its state name contains the query or its state code equals it |
| Schemes.BlankStateQueryKeepsAll | frontend/src/pages/Schemes.jsx:145-151 | a state query of white space only keeps every scheme |
| Schemes.IncomeBands | frontend/src/pages/Schemes.jsx:153-163 | an unknown income band rejects everything; 'bpl' and 'apl' accept exactly when the eligibility text mentions one of their phrases |
| Schemes.BplExample | frontend/src/pages/Schemes.jsx:154-161 | "BPL families" passes the 'bpl' band |
| Schemes.BlankSearchMatches | frontend/src/pages/Schemes.jsx:168 | a white-space search matches every scheme |
| Schemes.DedupSpec | frontend/src/pages/Schemes.jsx:199-201 | deduplication keeps exactly the same values, each once, never lengthening the list |
| Schemes.DedupPrefix | frontend/src/pages/Schemes.jsx:199-201 | the first occurrence wins: deduplicating a+b starts with deduplicated a |
| Schemes.DedupDistinct | frontend/src/pages/Schemes.jsx:199-201 | a list without repeats is unchanged |
| Schemes.PreferredDistinct | frontend/src/pages/Schemes.jsx:47-61 | the thirteen preferred categories are distinct |
| Schemes.CategoryButtonsSpec | frontend/src/pages/Schemes.jsx:199-201 | at most 14 distinct buttons, the thirteen preferred first in order, each preferred or used by some scheme |
| Schemes.Underscores | frontend/src/pages/Schemes.jsx:65 | replacing '_' keeps the length |
| Schemes.CapitalizeWords | frontend/src/pages/Schemes.jsx:65 | capitalising keeps the length |
| Schemes.PrettyCategoryAt | frontend/src/pages/Schemes.jsx:63-66 | each character of the label is a space for '_', upper-cased at a word start, else unchanged |
| Schemes.PrettyCategorySpec | frontend/src/pages/Schemes.jsx:63-66 | the label has the input's length and no '_' |
| Schemes.PrettyCategoryIdempotent | frontend/src/pages/Schemes.jsx:63-66 | prettifying a label again changes nothing |
| Schemes.PrettyCategoryExample | frontend/src/pages/Schemes.jsx:63-66 | "food_security" becomes "Food Security" |
| Accounts.FindByEmail | backend/controllers/userController.js:34-35 | the first account with that email, or none exactly when no account has it |
| Accounts.Register | backend/controllers/employerController.js:13-52 | 400 exactly when a field is missing, the email is invalid or the password is shorter than 8; 409 exactly when it is well formed but the email is taken; otherwise one inactive account with the hashed password is appended |
| Accounts.Login | backend/controllers/employerController.js:67-96 | only 401 on failure; a success is an active stored account with that email whose hash matches the password |
| Accounts.LoginSpec | backend/controllers/userController.js:71-97 | with unique emails, login succeeds exactly when an active account with that email matches the password |
| Accounts.RegisterKeepsEmailsUnique | backend/controllers/userController.js:34-52 | registration keeps emails unique, and the new account is the one found for its email |
| Accounts.RegisterThenLoginRefused | backend/controllers/employerController.js:88-90 | a freshly registered account cannot log in until activated, whatever the password |
| Documents.FindOfType | backend/controllers/userController.js:133-136 | the first document of that owner and type, or none exactly when there is none |
| Documents.FindOwned | backend/controllers/userController.js:195-205 | a document with that id and owner, or none exactly when there is none |
| Documents.RemoveAtSpec | backend/controllers/userController.js:139-141 | removing at k drops exactly that document and shifts the rest, order kept |
| Documents.WithoutTypeSpec | backend/controllers/userController.js:133-141 | dropping the owner's document of that type keeps every other document, keeps order, and with one per type leaves none of that type |
| Documents.UploadKeepsOnePerType | backend/controllers/userController.js:133-149 | upload keeps at most one document per owner and type, and the uploaded one is the only one of its type |
| Documents.OrderKept | backend/controllers/userController.js:133-149 | the documents left keep their relative order |
| Documents.OwnedBy | backend/controllers/employerController.js:325 | exactly the owner's documents, never more than all |
| Documents.VerifiedCount | backend/controllers/employerController.js:292-294 | at most the number of documents, and equal to it exactly when all are verified |
| Documents.GateMatchesDashboard | backend/controllers/employerController.js:325-334 | posting is allowed exactly when the dashboard shows at least one document, all of them verified |
| Documents.PendingNotVerified | backend/controllers/userController.js:144-149 | a pending document is not verified |
| Documents.UploadClosesGate | backend/controllers/employerController.js:473-491 | after an upload the uploader cannot post jobs until the new document is verified |
| Documents.DocumentStore.Upload | backend/controllers/userController.js:121-155 | 400 and no change without a file URL or type; otherwise one pending document replaces the owner's document of that type, the message says whether one was replaced, and one-per-type is kept |
| Documents.DocumentStore.Delete | backend/controllers/userController.js:191-211 | 404 and no change unless the requester owns a document with that id; otherwise exactly that document is removed |
| Documents.OwnedByAppend | backend/controllers/employerController.js:325 | the owner's documents of a concatenation are those of each part, in order |
| Documents.OwnedByRemove | backend/controllers/userController.js:139-141 | removing another owner's document leaves this owner's documents alone |
| Documents.UploadKeepsOtherOwners | backend/controllers/userController.js:133-149 | an upload never changes another owner's documents |
| Documents.DeleteKeepsOtherOwners | backend/controllers/userController.js:195-207 | a delete never changes another owner's documents |
| Jobs.Edited | backend/controllers/employerController.js:370-377 | an edit keeps the status valid, and changes it only to an allowed status the body gives |
| Jobs.EditIdempotent | backend/controllers/employerController.js:370-377 | sending the same edit twice is the same as sending it once |
| Jobs.EmptyEditKeeps | backend/controllers/employerController.js:370-377 | a body with only falsy guarded fields and no experience or description leaves the job as it was |
| Jobs.TruthyEmptyValues | backend/controllers/employerController.js:370-374 | [] and {} overwrite skills and salary range, while "" leaves the title alone |
| Jobs.StatusWhitelist | backend/controllers/employerController.js:377 | a status outside active/closed is ignored |
| Jobs.FindApplicant | backend/controllers/employerController.js:438-442 | an applicant with that subdocument id is found first; failing that, one whose id or worker string equals the key; none exactly when there is neither |
| Jobs.FirstIndex | backend/controllers/employerController.js:438-442 | the first matching applicant, or none exactly when none matches |
| Jobs.Job.constructor | backend/controllers/employerController.js:340-349 | a new job holds the given fields and no applicants |
| Jobs.Job.Edit | backend/controllers/employerController.js:370-377 | the job's fields become the edited fields and its applicants stay |
| Jobs.Job.SetApplicantStatus | backend/controllers/employerController.js:444-445 | only applicant k's status changes |
| Jobs.WithStatus | backend/controllers/employerController.js:444 | the found applicant gets the new status and keeps its id and worker; every other applicant is unchanged |
| Jobs.StatusNotSavedAsWritten | backend/models/jobModel.js:22-25 | with no `status` path in the applicant schema, the saved applicant keeps no status, where the intended update stores "accepted" |
| Jobs.Job.Apply | backend/controllers/publicController.js:49-55 | 400 and no change when the worker already applied; otherwise exactly one entry for the worker is appended, earlier entries kept; distinct workers are preserved |
| Jobs.FindJob | backend/controllers/employerController.js:367-368 | the first job with that id (and that employer, when given), or none exactly when there is none |
| EmployerController.RegisterEmployer | backend/controllers/employerController.js:13-52 | 400 or 409 exactly on the shared guards; otherwise one inactive employer account is appended |
| EmployerController.ProfileUpdate | backend/controllers/employerController.js:124-129 | the update holds exactly the editable fields the body gives truthy values, with those values; email, password and activation are never in it |
| EmployerController.CreateJob | backend/controllers/employerController.js:314-349 | 400 exactly on a falsy title, location or job type; 403 exactly when those are given but the gate is closed; otherwise the job stores the given title, location and job type, the salary range, skills, experience and description when truthy, `{}`, `[]`, "" and "" when not, and status "active" |
| EmployerController.CreateJobNeedsAllVerified | backend/controllers/employerController.js:325-334 | a job is created only when the employer has documents and all are verified |
| EmployerController.UploadBlocksPosting | backend/controllers/employerController.js:473-491 | after an upload, posting is refused until the document is verified |
| EmployerController.EditAllKeepsStatus | backend/controllers/employerController.js:377 | any run of edits keeps a valid status valid |
| EmployerController.CreatedStatusStaysValid | backend/models/jobModel.js:27 | a posted job's status stays active or closed through any edits |
| EmployerController.UpdateJob | backend/controllers/employerController.js:361-383 | 404 unless the employer owns the job; otherwise that job's fields are edited in place and its applicants are untouched |
| EmployerController.UpdateApplicantStatus | backend/controllers/employerController.js:428-447 | 400 for any other status before any lookup; 404 for an unknown job or applicant, with no change; otherwise only the found applicant's status changes |
| EmployerController.DashboardDocuments | backend/controllers/employerController.js:292-294 | never more verified than uploaded, and all verified with at least one exactly when posting is allowed |
| UserController.RegisterUser | backend/controllers/userController.js:9-52 | 400 or 409 exactly on the shared guards; otherwise one inactive, unverified worker with pending status and documents and no certificate is appended |
| UserController.PayloadSpec | backend/controllers/userController.js:248-261 | every listed field is in the payload, present or not; dob only when given, not null, not "" and parsable; image only when truthy; nothing else |
| UserController.PayloadAsWritten | backend/controllers/userController.js:248-253 | as written, the payload never carries gender |
| UserController.GenderDroppedAsWritten | backend/controllers/userController.js:238-253 | a body with a gender loses it |
| UserController.ProfilePayload | backend/controllers/userController.js:248-261 | the payload, with gender copied like the other form fields |
| UserController.ProfilePayloadSafe | backend/controllers/userController.js:248-261 | the payload never touches email, password, activation or verification fields, and it saves the form's gender |
| UserController.ProtectedNotEditable | backend/controllers/userController.js:248-253 | no protected field is a profile field |
| UserController.DobGuardExamples | backend/controllers/userController.js:256-259 | a dob of 0 is stored as the epoch, while "" and null are never stored |
| PublicController.GetPublicVerification | backend/controllers/publicController.js:5-21 | 400 exactly when the token is missing; 404 exactly when no verification has it; otherwise one that has it |
| PublicController.FindByToken | backend/controllers/publicController.js:12-19 | a verification with that token, or 404 exactly when there is none |
| PublicController.VerificationDetermined | backend/controllers/publicController.js:12-21 | with unique tokens, the answer is the one verification holding the token |
| PublicController.ApplyToJob | backend/controllers/publicController.js:40-60 | 400 without a job id, 404 for an unknown job; otherwise the job's duplicate check and append, nothing else changed |
| PublicController.ApplyTwice | backend/controllers/publicController.js:49-55 | applying twice: the second is refused and the worker has at most one entry |

## Left out

- The `natural` library (stemmer, Jaro-Winkler, TF-IDF) and `Math.sqrt` are foreign. They
  are parameters with the properties the model relies on: term lists with distinct terms
  and non-negative weights, and a true square root.
- IEEE floating point: numbers are exact reals. Rounding error and `Infinity` are not
  modelled. NaN appears where JavaScript's `Number(..)` produces it, and in the cosine's
  dot product when a term reads a function inherited from `Object.prototype`.
- The cosine's maps are plain objects: a read of a missing term finds an inherited
  function only for the names in `Cosine.InheritedNames`. A term `__proto__`, whose
  assignment to a plain object is ignored, is not modelled; cleaned texts hold only
  a-z, 0-9 and spaces, so it cannot arise.
- `results.sort` uses the engine's own algorithm; it is modelled as a stable insertion
  sort. Stability is what the engine guarantees, and what `Ranking.SortDescStable` states.
- Database calls (`find`, `findById`, `findOne`, `create`, `save`,
  `findByIdAndDelete`, `findByIdAndUpdate`, `populate`) are sequences passed in, or objects changed in place. Concurrency between
  requests and storage failures (the 500 answers) are left out.
- Mongoose schema validation on save is not modelled. Neither are unique indexes, except
  where a lemma takes uniqueness as a precondition. That strict mode drops an applicant's
  `status` is recorded under Findings.
- bcrypt, `jsonwebtoken` and `validator.isEmail` are parameters. Tokens are not modelled:
  login answers the account it admits.
- HTTP plumbing (`req`, `res`) is replaced by `Outcome`. React rendering, toasts, routing
  and local storage are left out. Only the search box's request body is modelled, not
  the fetch.
- Request fields are strings, and a missing field is "". A field that is present but
  not a string (a number sent as `name`) is not modelled for registration.
- Password length counts characters, not UTF-16 code units. Case mapping is ASCII only.
- CommonMapper.NameTextSpec: the 200 cut counts Unicode scalar values, where `slice(0, 200)`
  counts UTF-16 code units. A JSON text with characters outside the Basic Multilingual
  Plane keeps more text in the model, and JavaScript may split a surrogate pair, which a
  Dafny string cannot hold.
- CommonMapper.MapCommonName: the name cut counts Unicode scalar values, not UTF-16 code
  units, for the reason given for `CommonMapper.NameTextSpec`.
- `new Date(dob)` and `JSON.stringify` are parameters.
- The profile's salary preference is always absent, because the user schema declares
  none.
- The whole-document fallbacks `user.experienceYears` and `job.employer` population are
  not modelled.
- SearchBox.MeanBetweenWholeBounds: states that the sent preference lies between the
  bounds only for whole-number bounds. For fractional bounds it does not hold, as
  `SearchBox.MeanBelowFractionalBounds` shows.
- deleteEmployerDocument shares the delete rule of `Documents.DocumentStore.Delete`;
  the employer upload shares `Documents.DocumentStore.Upload`.

## Findings

| source | as written | input that shows it | evidently intended | confidence | as-written member | corrected member |
|---|---|---|---|---|---|---|
| backend/controllers/jobRecommendation.js:11-31 | `mapB` is a plain object, so for a job term "constructor" that the worker's text lacks, `mapB[term]` finds the inherited `Object.prototype.constructor`, a truthy function; the product makes `dot` NaN, and line 122's `\|\| 0` scores the TF-IDF component 0 | job text "need constructor to build walls", worker skills "build" | the lookup reads only the worker's own terms (a `Map` or `Object.create(null)`), giving the cosine over shared terms, here positive | not executed | Cosine.ConstructorTermZeroes | Cosine.CosineBounds |
| backend/models/jobModel.js:22-25 | the applicant schema has no `status` path, so strict mode drops `applicant.status = status` (employerController.js:444) and `job.save()` stores no status, though the answer says it was updated; backend/routes/employerRoutes.js neither imports nor mounts `updateApplicantStatus`, so no request reaches the handler as the routes stand | accept an applicant who has no status yet | the schema declares the applicant's status and the save stores it | not executed | Jobs.StatusNotSavedAsWritten | Jobs.Job.SetApplicantStatus |
| backend/controllers/userController.js:248-253 | `gender` is destructured from the body (line 238-244) but never copied into the update payload, so a worker's gender is never saved | body `{ name: "Asha", gender: "female" }` from the profile form, which sends gender | gender is saved like the other profile fields | not executed | UserController.GenderDroppedAsWritten | UserController.ProfilePayloadSafe |

The recommendation pipeline keeps the cosine as written, NaN and `|| 0` included, because
that is the score the endpoint ranks by; `Cosine.CosineSpec`, the cosine over the worker's
own terms, is the intended value, and `Cosine.CosineOrZero` states where the two differ.

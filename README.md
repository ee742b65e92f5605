# Hire-Wave placement portal — a Dafny model

Hire-Wave is a campus placement portal. Students upload a PDF résumé, which a
chain of Gemini models analyses. Companies post jobs and move applicants
through a recruitment pipeline. Administrators approve accounts and read
placement reports. This project models the server's routes and the
dashboard logic that decides eligibility and match scores, and proves
properties of them:

- `js.dfy` (module `Js`): the JavaScript values the program moves around.
  Covers truthiness, `||`, `Number(...)` (NaN modelled as `None`), `parseFloat`,
  `trim`, ASCII `toLowerCase`, `includes`, `split` and `join`.
- `schema.dfy` (module `Schema`): the SQLite tables created in
  `server/dbInit.js`, as sequences of rows kept in a `Database` object.
  - Rows have ascending AUTOINCREMENT ids.
  - Foreign keys are enforced, since `PRAGMA foreign_keys = ON`.
  - `Valid()` is the conjunction of one integrity predicate per table.
- `ai_analysis.dfy` (module `AiAnalysis`): `analyzeResumeText` as the source
  writes it. This covers the model's chain of fallbacks, the cleaning of the
  reply, the normalisation to eight keys, and the six-key record returned when
  every model fails. A corrected variant, `AnalyzeCorrected`, answers a total
  failure with a record of the analysis shape instead (see "## Findings").
- `student_routes.dfy`, `admin_routes.dfy`, `company_routes.dfy`: the three
  routers.
  - Reads are functions of the tables.
  - Writes are methods on a `Database`, with their complete new state in the
    postcondition.
  - A statement that throws inside a `try` becomes the route's 500 reply.
- `student_dashboard.dfy` (module `StudentDashboard`) and
  `company_dashboard.dfy` (module `CompanyDashboard`): the client-side
  computations. These are eligibility, the application timeline, job
  matching and the blended, sorted feed.
- `consistency.dfy` (module `Consistency`): how the three eligibility rules
  (server, student dashboard, company dashboard) agree and where they differ,
  and what the dashboard makes of the degraded analysis record.

Inputs the server receives from outside are parameters of the model:
- the authenticated caller (`Caller`: id and role, decoded from the JWT);
- the uploaded file and the clock reading used in its name;
- the upload directory;
- the result of PDF text extraction (`Extraction`);
- the outcome of each model call (`CallOutcome`);
- `JSON.parse` (a function parameter `parse`).

## Model

| member | source | states |
|---|---|---|
| Schema.Database.constructor | server/dbInit.js:7-89 | a new database file after initialisation is consistent: the approved default administrator is the only user, every other table is empty, and the companies, jobs, applications and log counters start at 1 |
| Schema.ParseAppStatusName | server/dbInit.js:64 | every one of the five application statuses passes the CHECK constraint and reads back as itself |
| Schema.StudentOfUser | server/routes/student.js:79 | the student row found belongs to the caller; there is none exactly when no row has that user id |
| Schema.UserByIdFinds | server/routes/admin.js:30 | with ascending ids, looking a user up by id returns that very row |
| Schema.UsersUpdated | server/routes/admin.js:28 | rewriting user rows without changing their ids keeps every foreign key into `users` intact |
| Schema.CompanyAppended | server/routes/admin.js:38 | inserting a company row for an existing user with the next id keeps the companies table and the jobs' foreign keys consistent |
| Schema.JobAppended | server/routes/company.js:53-56 | inserting a job for an existing company with the next id keeps jobs and applications consistent |
| Schema.ApplicationAppended | server/routes/student.js:190 | inserting an application for an existing student and job with the next id keeps the table consistent |
| Schema.StudentsUpdated | server/routes/student.js:154-157 | updating student rows that keep their id and user id keeps the students and applications tables consistent |
| AiAnalysis.StripFences | server/utils/aiAnalysis.js:47 | removing the code fences never lengthens the reply |
| AiAnalysis.StripFencesPlainPrefix | server/utils/aiAnalysis.js:47 | text without backticks passes through the fence removal unchanged, whatever follows it |
| AiAnalysis.CleanPlainReply | server/utils/aiAnalysis.js:47 | a reply with no backticks is only trimmed |
| AiAnalysis.CleanFencedReply | server/utils/aiAnalysis.js:47 | a reply wrapped in a ```` ```json ```` fence is cleaned to its trimmed body |
| AiAnalysis.TrimAppendSpace | server/utils/aiAnalysis.js:47 | a trailing space does not change the trimmed text |
| AiAnalysis.Normalize | server/utils/aiAnalysis.js:51-60 | the analysis has exactly the eight keys; each holds the parsed value when that is truthy and the default otherwise |
| AiAnalysis.NormalizeIdempotent | server/utils/aiAnalysis.js:51-60 | normalising an already normalised analysis changes nothing |
| AiAnalysis.NormalizeKeepsCompleteReply | server/utils/aiAnalysis.js:51-60 | a reply whose eight keys are all present and truthy is kept as it is, restricted to those keys |
| AiAnalysis.TryCandidate | server/utils/aiAnalysis.js:22-61 | a successful attempt always yields an analysis with exactly the eight keys |
| AiAnalysis.NullReplyFails | server/utils/aiAnalysis.js:48-51 | a reply that parses to `null` is a failure (the TypeError on reading a key of null), not an analysis |
| AiAnalysis.ErrorSummary | server/utils/aiAnalysis.js:72-79 | the summary is the quota notice when the last error mentions 429, and otherwise that error's message |
| AiAnalysis.DegradedRecord | server/utils/aiAnalysis.js:73-80 | as written, the record has six keys and none of `categorizedSkills`, `scoreBreakdown` or `summaryCritique`; it carries the advice and the error summary |
| AiAnalysis.DegradedRecordFull | server/utils/aiAnalysis.js:73-80 | the corrected record keeps every key and value of the as-written one and adds the eight analysis keys, with the summary and advice under `summaryCritique` |
| AiAnalysis.AnalyzeFrom | server/utils/aiAnalysis.js:20-80 | the loop asks at least one more candidate when one remains, never more than exist, and always ends with an object |
| AiAnalysis.Analyze | server/utils/aiAnalysis.js:8-81 | as written: between one and six candidates are asked and the result is always an object |
| AiAnalysis.AnalyzeCorrected | server/utils/aiAnalysis.js:8-81 | the corrected loop, answering a total failure with the full record: between one and six candidates are asked and the result is always an object |
| AiAnalysis.AnalyzersAgreeUnlessAllFail | server/utils/aiAnalysis.js:20-80 | the source's loop and the corrected one give the same answer unless every candidate fails |
| AiAnalysis.AnalyzeResumeText | server/utils/aiAnalysis.js:8-81 | the imperative fallback loop, ending with the six-key record as the source does, returns exactly the analysis and attempt count of the recursive specification `Analyze` |
| AiAnalysis.FirstSuccessWins | server/utils/aiAnalysis.js:20-61 | the first candidate that succeeds gives the analysis and no later candidate is asked |
| AiAnalysis.AllFailDegrades | server/utils/aiAnalysis.js:62-80 | when every candidate fails, all six are asked and the source answers with the six-key degraded record carrying the last failure's message (the corrected loop with the full record) |
| AiAnalysis.QuotaAdviceFollowsLastError | server/utils/aiAnalysis.js:72-79 | after a total failure, the quota advice is given if and only if the last error mentions 429, and the summary follows the same rule |
| AiAnalysis.OnlyLastFailureMatters | server/utils/aiAnalysis.js:62-80 | two total failures that end with the same outcome return the same record |
| StudentRoutes.CompanyMatches | server/routes/student.js:90 | every joined row produced for a job carries that job |
| StudentRoutes.CompanyMatchesUnique | server/routes/student.js:90 | with unique company ids, the join gives a job exactly one row, named after its company |
| StudentRoutes.CompanyMatchesNone | server/routes/student.js:90 | a job whose company does not exist has no joined row |
| StudentRoutes.OpenJobsJoined | server/routes/student.js:90 | only open jobs from the table are listed |
| StudentRoutes.EveryOpenJobListedOnce | server/routes/student.js:90 | with the foreign key holding, the listing is exactly the open jobs, each once, in table order |
| StudentRoutes.ApplicationsOf | server/routes/student.js:92 | the fetched applications are exactly the student's |
| StudentRoutes.StatusFor | server/routes/student.js:95-103 | the status is that of the first application to the job (NULL when that row has none), and `null` when the student has no application to it |
| StudentRoutes.Enrich | server/routes/student.js:94-106 | the required CGPA is the criterion read as a number, 0 when that is NaN or zero, and the student is eligible if and only if their CGPA (with NaN read as 0) reaches it |
| StudentRoutes.StudentJobs | server/routes/student.js:76-113 | without a student profile the reply is 404, with the company or missing-profile message; otherwise one enriched entry per listed job, in order |
| StudentRoutes.BlankCriterionEligible | server/routes/student.js:96-98 | a job whose criterion reads as 0 or less is open to every student with a non-negative CGPA |
| StudentRoutes.NoCriterionMeansZero | server/routes/student.js:96 | the criteria null, "", "   " and "CGPA 7" each read as 0 |
| StudentRoutes.BlankCriterionIsZero | server/routes/student.js:96 | every criterion made only of white space, the empty one included, reads as 0 |
| StudentRoutes.NonNumericCriterionIsZero | server/routes/student.js:96 | every criterion whose first non-space character is not a digit, a sign or a point reads as 0 |
| StudentRoutes.UploadFilename | server/routes/student.js:21-23 | the stored name is `<user id>-<timestamp>.pdf` and ends in `.pdf` |
| StudentRoutes.UploadFilenameInjective | server/routes/student.js:21-23 | two uploads share a file name only when both the user and the timestamp agree |
| StudentRoutes.SkillsString | server/routes/student.js:151 | as written: the joined `skills` array when the analysis has one, and otherwise the placeholder |
| StudentRoutes.SuccessStoresPlaceholder | server/routes/student.js:151 | as written, every successful analysis stores "No skills detected", whatever skills were found |
| StudentRoutes.PythonSkillLost | server/routes/student.js:151 | a concrete analysis listing Python as a technical skill stores the placeholder as written, and "Python" when corrected |
| StudentRoutes.SkillsStringCorrected | server/routes/student.js:151 | the corrected skills text agrees with the source when a `skills` array exists, and otherwise contains every categorized skill |
| StudentRoutes.SetResume | server/routes/student.js:154-157 | exactly the caller's student rows get the new path and skills; all others are unchanged |
| StudentRoutes.UploadResume | server/routes/student.js:26-166 | a non-PDF, a missing file or a failed extraction leaves the database unchanged and replies with the matching error; otherwise the caller's row gets the stored path and the skills text the source computes, and the analysis is returned |
| StudentRoutes.Apply | server/routes/student.js:184-196 | reply 404 without a profile, 400 on a repeat application, 500 for a job that does not exist; otherwise exactly one application with status `applied` is appended |
| StudentRoutes.ApplyTwice | server/routes/student.js:188-189 | applying twice to the same job adds at most one application and the second reply is "Already applied" |
| AdminRoutes.ListUsers | server/routes/admin.js:7-22 | non-administrators get 403 "Admin access denied"; administrators get every user in table order |
| AdminRoutes.ApproveRows | server/routes/admin.js:28 | exactly the rows with the given id become approved |
| AdminRoutes.Approve | server/routes/admin.js:26-47 | 403 for non-administrators and 500 for an unknown user change nothing; otherwise the user is approved, one log line is written, and a company profile is created for a company user without one |
| AdminRoutes.ApproveTwice | server/routes/admin.js:35-40 | approving a user twice creates at most one company profile but writes two log lines |
| AdminRoutes.PlacedIds | server/routes/admin.js:54-63 | the placed students are exactly those with a `placed` application |
| AdminRoutes.CountPending | server/routes/admin.js:55-56 | the pending count is zero exactly when no account of the role is pending, and the table size exactly when all are |
| AdminRoutes.ApprovalLowersPending | server/routes/admin.js:28 | approving an account lowers the pending count of its role by one when it was pending, and leaves every other count as it was |
| AdminRoutes.Departments | server/routes/admin.js:59-66 | the groups are distinct, and there is one for every department that occurs, including the null department |
| AdminRoutes.DeptStats | server/routes/admin.js:59-66 | each group's total counts its students, and its placed figure counts those of them who are placed |
| AdminRoutes.RecentActions | server/routes/admin.js:69 | at most five log entries, newest first |
| AdminRoutes.Reports | server/routes/admin.js:51-84 | non-administrators get 403; otherwise the unplaced count is total minus placed |
| AdminRoutes.PlacedAtMostTotal | server/routes/admin.js:53-74 | in a consistent database, placed students never outnumber students, so the unplaced count is never negative |
| AdminRoutes.DeptTotalsPartition | server/routes/admin.js:59-66 | the department totals add up to the number of students; every group is non-empty and has no more placed than total students |
| AdminRoutes.RecentActionsNewest | server/routes/admin.js:69 | the shown actions have strictly decreasing ids, and every action left out is older than all shown |
| CompanyRoutes.ApplicationsFor | server/routes/company.js:17 | the counted applications are exactly those for the job |
| CompanyRoutes.JobsByCompany | server/routes/company.js:15-21 | the jobs listed are exactly the company's |
| CompanyRoutes.CompanyJobs | server/routes/company.js:8-27 | 403 for non-companies and 404 without a company profile; otherwise every job of the caller's company is listed, with its applicant count |
| CompanyRoutes.AllJobs | server/routes/company.js:31-41 | 403 for non-companies; otherwise only open jobs are listed |
| CompanyRoutes.AllJobsListsEveryOpenJob | server/routes/company.js:35 | in a consistent database, the listing is exactly the open jobs in table order |
| CompanyRoutes.StoredCriterion | server/routes/company.js:48-55 | a missing criterion is stored as NULL, and any other value as given |
| CompanyRoutes.PostJob | server/routes/company.js:45-62 | 403, 404 and 500 (no title, NOT NULL) change nothing; otherwise one open job with the next id is appended and 201 returned |
| CompanyRoutes.NewJobHasNoApplicants | server/routes/company.js:53-57 | a newly posted job starts with an applicant count of zero |
| CompanyRoutes.PostedJobIsListed | server/routes/company.js:53-56 | a posted job leaves the open listing unchanged and adds itself at the end |
| CompanyRoutes.UserMatches | server/routes/company.js:74 | every row of the user join is built from the application and the student |
| CompanyRoutes.StudentMatches | server/routes/company.js:73 | every row of the student join belongs to the application's student |
| CompanyRoutes.ApplicantsOf | server/routes/company.js:66-83 | 403 for non-companies; otherwise the three-way join of the job's applications, students and users |
| CompanyRoutes.ApplicantsMatchApplications | server/routes/company.js:70-77 | with the foreign keys holding, the join neither drops nor repeats an application: it lists the job's application ids in order |
| CompanyRoutes.ApplicantsCountAgrees | server/routes/company.js:17-77 | the number of applicants listed equals the applicant count on the company's job list |
| CompanyRoutes.Bind | server/routes/company.js:90-92 | a missing status binds NULL; a status is accepted exactly when it is one of the five names |
| CompanyRoutes.BindStatusName | server/routes/company.js:92 | each of the five status names is stored as that status |
| CompanyRoutes.SetStatus | server/routes/company.js:92 | exactly the application with the id gets the new status |
| CompanyRoutes.SetStatusAbsent | server/routes/company.js:92 | updating an id that does not exist changes nothing |
| CompanyRoutes.SetStatusLastWins | server/routes/company.js:92 | of two status updates, the later one wins |
| CompanyRoutes.UpdateApplicationStatus | server/routes/company.js:87-98 | 403 for non-companies; an invalid status is a 500 when the row exists and succeeds vacuously when it does not; otherwise the row's status is set and nothing else changes |
| StudentDashboard.EligibleJobs | client/src/pages/StudentDashboard.jsx:123 | the eligible jobs are exactly the listed jobs that pass `checkEligibility` |
| StudentDashboard.ZeroCriterionNeverEligible | client/src/pages/StudentDashboard.jsx:117-121 | a job without the server's flag and without a positive criterion is never shown as eligible |
| StudentDashboard.FlaggedAlwaysEligible | client/src/pages/StudentDashboard.jsx:120 | a job the server flagged is always eligible |
| StudentDashboard.EligibleCountExtremes | client/src/pages/StudentDashboard.jsx:123 | every job flagged gives the full count; no job passing gives zero |
| StudentDashboard.IndexOf | client/src/pages/StudentDashboard.jsx:127 | `indexOf`: -1 exactly when the value is absent, and otherwise its first position |
| StudentDashboard.TimelineProgress | client/src/pages/StudentDashboard.jsx:125-146 | a step is ticked exactly when the status is at or beyond it, ticks form a prefix, and a connector is green exactly when the next step is ticked |
| StudentDashboard.TimelineCases | client/src/pages/StudentDashboard.jsx:126-127 | no status ticks only "applied"; "placed" ticks all four steps; "rejected" ticks none |
| StudentDashboard.LowerAll | client/src/pages/StudentDashboard.jsx:155 | lower-casing succeeds exactly when every term is a string, and it lower-cases each term |
| StudentDashboard.MatchedUnmatchedSplit | client/src/pages/StudentDashboard.jsx:159-160 | every résumé term is either matched or missing, never both |
| StudentDashboard.RoundHalfUp | client/src/pages/StudentDashboard.jsx:163 | `Math.round` of a non-negative fraction is the nearest integer, with halves rounded up |
| StudentDashboard.ScoreBounds | client/src/pages/StudentDashboard.jsx:163-164 | the score is between 1 and 100, at least 85 for AI-matched jobs, 40 or 85 with no match, and 100 once matches reach a fifth of the words |
| StudentDashboard.OneMatchScoresBelowNone | client/src/pages/StudentDashboard.jsx:163 | on a 300-word job, one match scores 2 while no match scores 40 |
| StudentDashboard.MissingShown | client/src/pages/StudentDashboard.jsx:160-166 | at most the first three missing terms are shown, and the three fillers when nothing is missing |
| StudentDashboard.CalculateJobMatch | client/src/pages/StudentDashboard.jsx:148-167 | no analysis gives no match; a computed match has a score from 1 to 100 (85 or more when AI-matched) and one to three missing terms |
| StudentDashboard.MatchFromTerms | client/src/pages/StudentDashboard.jsx:151-166 | the score is the final score of the matched terms over the job's words; shown missing terms are real misses or fillers |
| StudentDashboard.ScoreAll | client/src/pages/StudentDashboard.jsx:466-467 | scoring succeeds exactly when no job's match throws, and then pairs each job with its match, in order |
| StudentDashboard.SortByScoreSorted | client/src/pages/StudentDashboard.jsx:469 | the sorted feed is in descending score order and is a permutation of its input |
| StudentDashboard.SortByScoreStable | client/src/pages/StudentDashboard.jsx:469 | among jobs with equal scores, the sort keeps the original order |
| StudentDashboard.VisibleMembers | client/src/pages/StudentDashboard.jsx:470 | exactly the jobs scoring above 10 stay in the feed |
| StudentDashboard.BlendedFeedOrder | client/src/pages/StudentDashboard.jsx:465-470 | the feed holds the scored jobs above 10, highest first; at equal scores internal jobs come before external ones and each keeps its order |
| StudentDashboard.BlendedFeedOutcomes | client/src/pages/StudentDashboard.jsx:465-470 | without an analysis the upload prompt shows; the feed fails to render exactly when some job's match throws |
| CompanyDashboard.NoCriterionNobodyEligible | client/src/pages/CompanyDashboard.jsx:201 | with no criterion, a null one or a blank one, every applicant is shown as below the cut-off |
| CompanyDashboard.DecimalCriterionCutoff | client/src/pages/CompanyDashboard.jsx:201 | for a criterion starting with a decimal number (whatever text follows it), an applicant is eligible if and only if their CGPA reaches that number |
| Js.DecimalTextReadsAlike | client/src/pages/CompanyDashboard.jsx:201 | `Number` and `parseFloat` read a plain decimal criterion as the same value |
| Js.DecimalTextWithSuffixIsNaN | server/routes/student.js:96 | a decimal followed by other text (such as "7.5 CGPA") is NaN to `Number` |
| Js.BlankAndNullDiffer | server/routes/student.js:96 | `Number` reads blank text and null as 0, while `parseFloat` reads them as NaN |
| Consistency.ClientCriterionIsServerCriterion | client/src/pages/StudentDashboard.jsx:119 | the dashboard reads back exactly the criterion the server computed for the job |
| Consistency.ClientAgreesWithServer | client/src/pages/StudentDashboard.jsx:117-121 | on a listed job, `checkEligibility` holds if and only if the server flagged the job eligible |
| Consistency.EligibleCountIsServerCount | client/src/pages/StudentDashboard.jsx:123 | the dashboard's count of eligible jobs equals the number of jobs the server flagged |
| Consistency.DecimalCriterionAgrees | client/src/pages/CompanyDashboard.jsx:201 | for a plain decimal criterion, the server's and the company dashboard's eligibility agree |
| Consistency.SuffixedCriterionDisagrees | client/src/pages/CompanyDashboard.jsx:201 | for a criterion such as "7.5 CGPA", the server flags every student eligible while the company dashboard still applies the 7.5 cut-off |
| Consistency.MissingCriterionDisagrees | client/src/pages/CompanyDashboard.jsx:201 | a job posted without a criterion is open to every student on the server and to nobody on the company dashboard |
| Consistency.DegradedRecordBreaksFeed | server/utils/aiAnalysis.js:73-80 | as written, the degraded record makes every job match throw, and the feed fails to render |
| Consistency.DegradedRecordFullKeepsFeed | server/utils/aiAnalysis.js:73-80 | the corrected degraded record gives every job a match, so the feed renders |
| Consistency.AllFailuresBreakFeed | server/utils/aiAnalysis.js:62-80 | as written: when every model fails and some job is listed, the analysis the server returns makes the dashboard's feed fail to render |
| Consistency.AllFailuresStillRankJobs | server/utils/aiAnalysis.js:62-80 | corrected: when every model fails, the corrected analyzer's record still lets the dashboard render the ranked feed |

## Left out

- The React rendering itself (markup, styles, hooks, state updates) is left out. Only the computations the dashboards perform are modelled.
- The two dashboards' fetch calls are left out. The student dashboard's jobs are taken to be the `GET /jobs` reply, with `required_cgpa` set as the server sets it.
- The Gemini SDK, the network and `JSON.parse` are parameters: the outcome of each model call, and a `parse` function.
- PDF text extraction (pdf-parse) is a parameter, `Extraction`, as are multer's storage, the upload directory and the clock.
- `fs` calls (creating the upload directory, reading the file) are left out. The file is taken to be readable once multer has stored it.
- The external jobs route (Adzuna), the profile routes, the ping route, registration, log-in and `server/routes/auth.js` are left out, as is the JWT middleware. The middleware's result is the `Caller` parameter.
- Console logging is left out.
- Floating point is modelled with reals: CGPAs and scores have no rounding error and no IEEE special values.
- `Number` conversion covers decimal text with optional sign, fraction and surrounding white space. Exponents, hexadecimal and `Infinity` are out of scope: such text has no number in the model. `parseFloat` reads only the longest decimal prefix, so "1e5" reads as 1 here, where JavaScript reads 100000.
- Number-to-text conversion is cut off after 20 fraction digits.
- Lower-casing is ASCII only; Unicode case mapping is out of scope.
- Concurrent requests are not modelled. Each route runs alone, from start to finish.
- `created_at` is not modelled. The five recent actions are taken in insertion order, which is also the id order; rows with equal timestamps could appear in another order in the source.
- SQL result order without `ORDER BY` is taken to be table order; this includes the order of the join and of `GROUP BY` groups.
- SQLite's column affinity conversions are not modelled. The CGPA and criterion values are kept as given.
- Non-numeric URL parameters are out of scope: ids are natural numbers.
- UNIQUE usernames and emails matter only to registration and are not modelled.
- CompanyRoutes.PostJob: a title or description that is not text is out of scope; a missing title is the NOT NULL failure.
- CompanyRoutes.Bind: an array or object status is treated as failing the CHECK constraint.
- The neither-owned-nor-checked access in the applicants and status routes is modelled as in the source: any company may read or change any job's applications.
- Schema.Database.constructor: models `initDB` on a new database file. On an existing file the tables keep their rows. The seeded administrator's email and bcrypt-hashed password are not columns of the model.
- The missing-keyword badges on the high-match cards (client/src/pages/StudentDashboard.jsx:428) are a fixed list and have no logic to model.

## Findings

| source | as written | input that shows it | evidently intended | confidence | as-written member | corrected member |
|---|---|---|---|---|---|---|
| server/utils/aiAnalysis.js:73-80 | when every model fails, the returned record has no `categorizedSkills`, so the student dashboard's `calculateJobMatch` (client/src/pages/StudentDashboard.jsx:151-155) throws on any job | all six candidates throw (for example a quota error), with at least one job listed | the degraded record should have the analysis shape, so that the dashboard can still score jobs | not executed | Consistency.AllFailuresBreakFeed | Consistency.AllFailuresStillRankJobs |
| server/routes/student.js:151 | the skills text reads `analysis.skills`, which a successful normalised analysis never has, so "No skills detected" is always stored | an analysis with `categorizedSkills.technical = ["Python"]` | store the skills the analysis found | not executed | StudentRoutes.PythonSkillLost | StudentRoutes.SkillsStringCorrected |

The analyzer and the upload route are modelled as written. Each corrected member stands beside its as-written counterpart and is proved to differ only in the faulty case.

/**
 * The student API: the open-job listing enriched with eligibility and the
 * caller's application status, the resume upload (filter, file name,
 * extraction, analysis, stored skills) and applying to a job.
 */
module StudentRoutes {
  import opened Wrappers
  import opened Js
  import opened Schema
  import opened AiAnalysis

  // ---------------------------------------------------------------------
  // GET /jobs

  /** A row of `SELECT j.*, c.company_name FROM jobs j JOIN companies c ON j.company_id = c.id WHERE j.status = "open"`. */
  datatype JoinedJob = JoinedJob(job: Job, companyName: string)

  /** The companies a job joins with. */
  function CompanyMatches(job: Job, cs: seq<CompanyRow>): (r: seq<JoinedJob>)
    ensures forall i | 0 <= i < |r| :: r[i].job == job
  {
    if cs == [] then []
    else (if cs[0].id == job.companyId then [JoinedJob(job, cs[0].companyName)] else []) + CompanyMatches(job, cs[1..])
  }

  /** The open jobs joined with their company, in job order. */
  function OpenJobsJoined(js: seq<Job>, cs: seq<CompanyRow>): (r: seq<JoinedJob>)
    ensures forall i | 0 <= i < |r| :: r[i].job in js && r[i].job.status == Open
  {
    if js == [] then []
    else (if js[0].status == Open then CompanyMatches(js[0], cs) else []) + OpenJobsJoined(js[1..], cs)
  }

  /** `SELECT job_id, status FROM applications WHERE student_id = ?` */
  function ApplicationsOf(apps: seq<Application>, studentId: nat): (r: seq<Application>)
    ensures forall a :: a in r <==> a in apps && a.studentId == studentId
  {
    if apps == [] then []
    else (if apps[0].studentId == studentId then [apps[0]] else []) + ApplicationsOf(apps[1..], studentId)
  }

  /** `application ? application.status : null` for the first application to the job. */
  function StatusFor(apps: seq<Application>, jobId: nat): (r: Option<AppStatus>)
    ensures (forall a | a in apps :: a.jobId != jobId) ==> r.None?
    ensures r.Some? ==> exists a | a in apps :: a.jobId == jobId && a.status == r
    ensures forall i | 0 <= i < |apps| && apps[i].jobId == jobId && (forall j | 0 <= j < i :: apps[j].jobId != jobId) ::
      r == apps[i].status
  {
    if apps == [] then None
    else if apps[0].jobId == jobId then apps[0].status
    else StatusFor(apps[1..], jobId)
  }

  /** One job as the listing returns it: the row plus `is_eligible`, `application_status` and `required_cgpa`. */
  datatype EnrichedJob = EnrichedJob(
    job: Job, companyName: string, isEligible: bool, applicationStatus: Option<AppStatus>, requiredCgpa: real)

  /** The enrichment of one joined row for a student with CGPA `cgpa` and applications `apps`. */
  function Enrich(row: JoinedJob, cgpa: JsValue, apps: seq<Application>): (r: EnrichedJob)
    ensures r.job == row.job && r.companyName == row.companyName
    ensures r.requiredCgpa == CoerceNumber(row.job.eligibilityCriteria)
    ensures r.isEligible <==> CoerceNumber(cgpa) >= r.requiredCgpa
    ensures r.applicationStatus == StatusFor(apps, row.job.id)
  {
    var reqCgpa := CoerceNumber(row.job.eligibilityCriteria);
    var studentCgpa := CoerceNumber(cgpa);
    EnrichedJob(row.job, row.companyName, studentCgpa >= reqCgpa, StatusFor(apps, row.job.id), reqCgpa)
  }

  datatype JobsReply = JobsNotFound(message: string) | JobsList(jobs: seq<EnrichedJob>)

  const CompanyCannotTrack: string := "Access denied: Company accounts cannot view student job tracking"
  const ProfileMissing: string := "Student profile record missing for this account"

  /** `GET /jobs` for the caller. */
  function StudentJobs(
    students: seq<StudentRow>, companies: seq<CompanyRow>, jobs: seq<Job>, applications: seq<Application>, caller: Caller)
    : (r: JobsReply)
    ensures r.JobsNotFound? <==> StudentOfUser(students, caller.id).None?
    ensures r.JobsNotFound? ==> r.message == if caller.role == Company then CompanyCannotTrack else ProfileMissing
    ensures r.JobsList? ==>
      var s := StudentOfUser(students, caller.id).value;
      var rows := OpenJobsJoined(jobs, companies);
      && |r.jobs| == |rows|
      && forall i | 0 <= i < |rows| :: r.jobs[i] == Enrich(rows[i], s.cgpa, ApplicationsOf(applications, s.id))
  {
    match StudentOfUser(students, caller.id)
    case None => JobsNotFound(if caller.role == Company then CompanyCannotTrack else ProfileMissing)
    case Some(s) =>
      var rows := OpenJobsJoined(jobs, companies);
      var apps := ApplicationsOf(applications, s.id);
      JobsList(seq(|rows|, i requires 0 <= i < |rows| => Enrich(rows[i], s.cgpa, apps)))
  }

  /** A job whose criterion converts to nothing positive is open to every student, whatever the CGPA. */
  lemma BlankCriterionEligible(row: JoinedJob, cgpa: JsValue, apps: seq<Application>)
    requires CoerceNumber(row.job.eligibilityCriteria) <= 0.0
    requires CoerceNumber(cgpa) >= 0.0
    ensures Enrich(row, cgpa, apps).isEligible
  {
  }

  /** A NULL, blank or unparsable criterion counts as no requirement at all. */
  lemma NoCriterionMeansZero()
    ensures CoerceNumber(Null) == 0.0 && CoerceNumber(Str("")) == 0.0 && CoerceNumber(Str("   ")) == 0.0
    ensures CoerceNumber(Str("CGPA 7")) == 0.0
  {
    assert Trim("   ") == "";
    assert TrimStart("CGPA 7") == "CGPA 7";
    assert TrimEnd("CGPA 7") == "CGPA 7";
    assert ScanDecimal("CGPA 7") == None;
  }

  /** A criterion made only of white space (the empty string included) counts as no requirement. */
  lemma BlankCriterionIsZero(s: string)
    requires forall i | 0 <= i < |s| :: IsSpace(s[i])
    ensures CoerceNumber(Str(s)) == 0.0
  {
  }

  /** A criterion whose first non-space character can start no number (not a digit, a sign or a point) counts as no requirement. */
  lemma NonNumericCriterionIsZero(s: string)
    requires TrimStart(s) != [] && !IsDigit(TrimStart(s)[0])
    requires TrimStart(s)[0] != '+' && TrimStart(s)[0] != '-' && TrimStart(s)[0] != '.'
    ensures CoerceNumber(Str(s)) == 0.0
  {
    var t := TrimStart(s);
    var u := Trim(s);
    assert u != [] && u[0] == t[0];
    assert DigitRun(u) == 0;
    assert ScanDecimal(u) == None;
  }

  lemma {:induction false} CompanyMatchesUnique(job: Job, cs: seq<CompanyRow>, k: nat)
    requires forall i, j | 0 <= i < j < |cs| :: cs[i].id != cs[j].id
    requires k < |cs| && cs[k].id == job.companyId
    ensures CompanyMatches(job, cs) == [JoinedJob(job, cs[k].companyName)]
    decreases |cs|
  {
    if k == 0 {
      assert CompanyMatches(job, cs[1..]) == [] by {
        CompanyMatchesNone(job, cs[1..]);
      }
    } else {
      assert cs[0].id != job.companyId by { assert cs[0].id != cs[k].id; }
      CompanyMatchesUnique(job, cs[1..], k - 1);
    }
  }

  lemma {:induction false} CompanyMatchesNone(job: Job, cs: seq<CompanyRow>)
    requires forall i | 0 <= i < |cs| :: cs[i].id != job.companyId
    ensures CompanyMatches(job, cs) == []
    decreases |cs|
  {
    if cs != [] {
      CompanyMatchesNone(job, cs[1..]);
    }
  }

  /** `j.status = "open"` */
  function OpenJobs(js: seq<Job>): seq<Job> {
    if js == [] then [] else (if js[0].status == Open then [js[0]] else []) + OpenJobs(js[1..])
  }

  function JobsOf(rows: seq<JoinedJob>): seq<Job> {
    seq(|rows|, i requires 0 <= i < |rows| => rows[i].job)
  }

  lemma JobsOfAppend(a: seq<JoinedJob>, b: seq<JoinedJob>)
    ensures JobsOf(a + b) == JobsOf(a) + JobsOf(b)
  {
  }

  /** The joined rows of one job: exactly one when it is open, none when it is closed. */
  lemma JoinedHead(job: Job, cs: seq<CompanyRow>)
    requires forall i, j | 0 <= i < j < |cs| :: cs[i].id != cs[j].id
    requires HasCompany(cs, job.companyId)
    ensures JobsOf(if job.status == Open then CompanyMatches(job, cs) else []) == if job.status == Open then [job] else []
  {
    if job.status == Open {
      var k :| 0 <= k < |cs| && cs[k].id == job.companyId;
      CompanyMatchesUnique(job, cs, k);
    }
  }

  /** With unique company ids and resolved foreign keys, the listing has every open job exactly once, in order. */
  lemma {:induction false} EveryOpenJobListedOnce(js: seq<Job>, cs: seq<CompanyRow>)
    requires forall i, j | 0 <= i < j < |cs| :: cs[i].id != cs[j].id
    requires forall i | 0 <= i < |js| :: HasCompany(cs, js[i].companyId)
    ensures JobsOf(OpenJobsJoined(js, cs)) == OpenJobs(js)
    decreases |js|
  {
    if js != [] {
      assert forall i | 0 <= i < |js[1..]| :: js[1..][i] == js[i + 1];
      EveryOpenJobListedOnce(js[1..], cs);
      var head := if js[0].status == Open then CompanyMatches(js[0], cs) else [];
      JoinedHead(js[0], cs);
      JobsOfAppend(head, OpenJobsJoined(js[1..], cs));
    }
  }

  // ---------------------------------------------------------------------
  // POST /upload-resume

  /** The uploaded part named `resume`, as multer sees it. */
  datatype UploadedFile = UploadedFile(mimetype: string)

  /** The upload filter: only PDFs are stored. */
  predicate AcceptsUpload(f: UploadedFile) {
    f.mimetype == "application/pdf"
  }

  /** The stored name `${userId}-${now}.pdf`. */
  function UploadFilename(userId: nat, now: nat): (r: string)
    ensures r == NatToString(userId) + "-" + NatToString(now) + ".pdf"
    ensures |r| > 4 && r[|r| - 4..] == ".pdf"
  {
    var r := NatToString(userId) + "-" + NatToString(now) + ".pdf";
    assert r[|r| - 4..] == ".pdf";
    r
  }

  lemma {:induction false} NatToStringValue(n: nat)
    ensures DigitsValue(NatToString(n)) == n
    decreases n
  {
    var s := NatToString(n);
    if n >= 10 {
      NatToStringValue(n / 10);
      assert s[..|s| - 1] == NatToString(n / 10);
    }
  }

  lemma DashSplit(a1: string, r1: string, a2: string, r2: string)
    requires forall i | 0 <= i < |a1| :: IsDigit(a1[i])
    requires forall i | 0 <= i < |a2| :: IsDigit(a2[i])
    requires a1 + "-" + r1 == a2 + "-" + r2
    ensures a1 == a2 && r1 == r2
  {
    var s := a1 + "-" + r1;
    var t := a2 + "-" + r2;
    assert s[|a1|] == '-' && t[|a2|] == '-';
    assert a1 == s[..|a1|] && a2 == t[..|a2|];
    assert r1 == s[|a1| + 1..] && r2 == t[|a2| + 1..];
  }

  /** Distinct (user, time) pairs give distinct file names, so one upload never overwrites another's file. */
  lemma UploadFilenameInjective(u1: nat, t1: nat, u2: nat, t2: nat)
    requires UploadFilename(u1, t1) == UploadFilename(u2, t2)
    ensures u1 == u2 && t1 == t2
  {
    var a1, b1 := NatToString(u1), NatToString(t1);
    var a2, b2 := NatToString(u2), NatToString(t2);
    assert UploadFilename(u1, t1) == a1 + "-" + (b1 + ".pdf");
    assert UploadFilename(u2, t2) == a2 + "-" + (b2 + ".pdf");
    DashSplit(a1, b1 + ".pdf", a2, b2 + ".pdf");
    assert b1 == (b1 + ".pdf")[..|b1 + ".pdf"| - 4];
    assert b2 == (b2 + ".pdf")[..|b2 + ".pdf"| - 4];
    NatToStringValue(u1);
    NatToStringValue(u2);
    NatToStringValue(t1);
    NatToStringValue(t2);
  }

  /** `xs.join(', ')` over JSON values. */
  function JoinValues(xs: seq<JsValue>): string {
    Join(seq(|xs|, i requires 0 <= i < |xs| => JoinText(xs[i])), ", ")
  }

  /**
   * The skills text stored at upload, as the source computes it: the
   * `skills` array of the analysis, or a placeholder.
   */
  function SkillsString(analysis: JsValue): (r: string)
    requires NotNullish(analysis)
    ensures !OptGet(analysis, "skills").Arr? ==> r == "No skills detected"
    ensures OptGet(analysis, "skills").Arr? ==> r == JoinValues(OptGet(analysis, "skills").items)
  {
    match OptGet(analysis, "skills")
    case Arr(xs) => JoinValues(xs)
    case _ => "No skills detected"
  }

  /** The items of an array, or none. */
  function Items(v: JsValue): seq<JsValue> {
    if v.Arr? then v.items else []
  }

  /** Technical skills, tools and soft skills of an analysis. */
  function CategorizedSkills(analysis: JsValue): seq<JsValue> {
    var cs := OptGet(analysis, "categorizedSkills");
    Items(OptGet(cs, "technical")) + Items(OptGet(cs, "tools")) + Items(OptGet(cs, "soft"))
  }

  /**
   * The skills text the upload evidently means to store: a `skills` array
   * where there is one (the degraded record), otherwise the categorized
   * skills, and the placeholder only when there are none.
   */
  function SkillsStringCorrected(analysis: JsValue): (r: string)
    requires NotNullish(analysis)
    ensures OptGet(analysis, "skills").Arr? ==> r == SkillsString(analysis)
    ensures !OptGet(analysis, "skills").Arr? ==>
      forall i | 0 <= i < |CategorizedSkills(analysis)| :: CategorizedSkills(analysis)[i].Str? ==>
        Includes(r, CategorizedSkills(analysis)[i].s)
  {
    match OptGet(analysis, "skills")
    case Arr(xs) => JoinValues(xs)
    case _ =>
      var all := CategorizedSkills(analysis);
      if all == [] then "No skills detected"
      else
        var texts := seq(|all|, i requires 0 <= i < |all| => JoinText(all[i]));
        assert forall i | 0 <= i < |all| :: all[i].Str? ==> texts[i] == all[i].s;
        assert forall i | 0 <= i < |all| :: Includes(Join(texts, ", "), texts[i]) by {
          forall i | 0 <= i < |all| ensures Includes(Join(texts, ", "), texts[i]) {
            JoinIncludes(texts, ", ", i);
          }
        }
        Join(texts, ", ")
  }

  /** Every successful analysis (the normalised record) has no `skills` key, so the source stores the placeholder. */
  lemma SuccessStoresPlaceholder(parsed: JsValue)
    requires NotNullish(parsed)
    ensures SkillsString(Normalize(parsed)) == "No skills detected"
  {
    assert "skills" !in AnalysisDefaults;
  }

  /** A concrete case: for an analysis listing Python, the source stores the placeholder, the corrected text "Python". */
  lemma PythonSkillLost()
    ensures var analysis := Normalize(Obj(map["categorizedSkills" := Obj(map["technical" := Arr([Str("Python")])])]));
      && SkillsString(analysis) == "No skills detected"
      && SkillsStringCorrected(analysis) == "Python"
  {
    var skills := Obj(map["technical" := Arr([Str("Python")])]);
    var parsed := Obj(map["categorizedSkills" := skills]);
    var analysis := Normalize(parsed);
    SuccessStoresPlaceholder(parsed);
    assert OptGet(analysis, "categorizedSkills") == skills by {
      assert OptGet(parsed, "categorizedSkills") == skills;
    }
    assert OptGet(skills, "technical") == Arr([Str("Python")]);
    assert OptGet(skills, "tools") == Undefined && OptGet(skills, "soft") == Undefined;
    assert CategorizedSkills(analysis) == [Str("Python")];
    assert "skills" !in AnalysisDefaults;
  }

  /** The students table after `UPDATE students SET resume_path = ?, skills = ? WHERE user_id = ?`. */
  function SetResume(ss: seq<StudentRow>, userId: nat, path: string, skills: string): (r: seq<StudentRow>)
    ensures |r| == |ss|
    ensures forall i | 0 <= i < |ss| ::
      r[i] == if ss[i].userId == userId then ss[i].(resumePath := Some(path), skills := Some(skills)) else ss[i]
  {
    seq(|ss|, i requires 0 <= i < |ss| =>
      if ss[i].userId == userId then ss[i].(resumePath := Some(path), skills := Some(skills)) else ss[i])
  }

  /** What pdf-parse made of the stored file. */
  datatype Extraction = Extracted(text: string) | ExtractionFailed(message: string)

  const OnlyPdf: Reply := Reply(500, "Internal Server Error: Only PDF files are allowed")

  /**
   * `POST /upload-resume`. `file` is the `resume` part (None when the form
   * has none), `now` the clock, `uploadDir` the upload directory, `pdf` the
   * outcome of the text extraction and `outcomes`/`parse` what the analyzer
   * will meet. A rejected type is answered by the application's error
   * handler. The stored skills text is computed as the source computes it.
   */
  method UploadResume(
    db: Database, caller: Caller, file: Option<UploadedFile>, now: nat, uploadDir: string,
    pdf: Extraction, outcomes: seq<CallOutcome>, parse: string -> ParseOutcome)
    returns (reply: Reply, analysis: Option<JsValue>)
    requires db.Valid()
    requires |outcomes| == |Candidates|
    modifies db
    ensures db.Valid()
    ensures file.Some? && !AcceptsUpload(file.value) ==> reply == OnlyPdf && analysis.None? && unchanged(db)
    ensures file.None? ==> reply == Reply(400, "No file uploaded") && analysis.None? && unchanged(db)
    ensures file.Some? && AcceptsUpload(file.value) && pdf.ExtractionFailed? ==>
      reply == Reply(500, "Error processing resume: " + pdf.message) && analysis.None? && unchanged(db)
    ensures file.Some? && AcceptsUpload(file.value) && pdf.Extracted? ==>
      var a := Analyze(outcomes, parse).result;
      && reply == Reply(200, "Resume uploaded and analyzed") && analysis == Some(a)
      && db.students == SetResume(old(db.students), caller.id, uploadDir + UploadFilename(caller.id, now), SkillsString(a))
      && db.users == old(db.users) && db.companies == old(db.companies) && db.jobs == old(db.jobs)
      && db.applications == old(db.applications) && db.logs == old(db.logs)
      && db.nextCompanyId == old(db.nextCompanyId) && db.nextJobId == old(db.nextJobId)
      && db.nextApplicationId == old(db.nextApplicationId) && db.nextLogId == old(db.nextLogId)
  {
    if file.None? {
      return Reply(400, "No file uploaded"), None;
    }
    if !AcceptsUpload(file.value) {
      return OnlyPdf, None;
    }
    var path := uploadDir + UploadFilename(caller.id, now);
    match pdf {
      case ExtractionFailed(m) =>
        return Reply(500, "Error processing resume: " + m), None;
      case Extracted(text) =>
        var result, _ := AnalyzeResumeText(outcomes, parse);
        var skillsStr := SkillsString(result);
        db.students := SetResume(db.students, caller.id, path, skillsStr);
        StudentsUpdated(old(db.students), db.students, db.users, db.applications, db.jobs, db.nextApplicationId);
        return Reply(200, "Resume uploaded and analyzed"), Some(result);
    }
  }

  // ---------------------------------------------------------------------
  // POST /apply/:jobId

  predicate HasApplied(apps: seq<Application>, studentId: nat, jobId: nat) {
    exists i | 0 <= i < |apps| :: apps[i].studentId == studentId && apps[i].jobId == jobId
  }

  /**
   * `POST /apply/:jobId`. The route checks neither the job's status nor the
   * student's eligibility; the foreign key rejects a job that does not exist.
   */
  method Apply(db: Database, caller: Caller, jobId: nat) returns (reply: Reply)
    requires db.Valid()
    modifies db
    ensures db.Valid()
    ensures StudentOfUser(old(db.students), caller.id).None? ==>
      reply == Reply(404, "Student not found") && unchanged(db)
    ensures StudentOfUser(old(db.students), caller.id).Some? ==>
      var s := StudentOfUser(old(db.students), caller.id).value;
      && (HasApplied(old(db.applications), s.id, jobId) ==> reply == Reply(400, "Already applied") && unchanged(db))
      && (!HasApplied(old(db.applications), s.id, jobId) && !HasJob(old(db.jobs), jobId) ==>
            reply == ServerError && unchanged(db))
      && (!HasApplied(old(db.applications), s.id, jobId) && HasJob(old(db.jobs), jobId) ==>
            && reply == Reply(200, "Applied successfully")
            && db.applications == old(db.applications) + [Application(old(db.nextApplicationId), s.id, jobId, Some(DefaultAppStatus))]
            && db.nextApplicationId == old(db.nextApplicationId) + 1
            && db.users == old(db.users) && db.students == old(db.students) && db.companies == old(db.companies)
            && db.jobs == old(db.jobs) && db.logs == old(db.logs)
            && db.nextCompanyId == old(db.nextCompanyId) && db.nextJobId == old(db.nextJobId)
            && db.nextLogId == old(db.nextLogId))
  {
    var student := StudentOfUser(db.students, caller.id);
    if student.None? {
      return Reply(404, "Student not found");
    }
    var s := student.value;
    if HasApplied(db.applications, s.id, jobId) {
      return Reply(400, "Already applied");
    }
    if !HasJob(db.jobs, jobId) {
      // FOREIGN KEY constraint failed
      return ServerError;
    }
    var k :| 0 <= k < |db.students| && db.students[k] == s;
    var row := Application(db.nextApplicationId, s.id, jobId, Some(DefaultAppStatus));
    assert HasStudent(db.students, s.id) by { assert db.students[k].id == s.id; }
    ApplicationAppended(db.applications, row, db.students, db.jobs, db.nextApplicationId);
    db.applications := db.applications + [row];
    db.nextApplicationId := db.nextApplicationId + 1;
    return Reply(200, "Applied successfully");
  }

  /** Applying twice to the same job leaves one application. */
  method ApplyTwice(db: Database, caller: Caller, jobId: nat) returns (first: Reply, second: Reply)
    requires db.Valid()
    requires StudentOfUser(db.students, caller.id).Some? && HasJob(db.jobs, jobId)
    modifies db
    ensures first.code == 200 || first == Reply(400, "Already applied")
    ensures second == Reply(400, "Already applied")
    ensures |db.applications| <= |old(db.applications)| + 1
  {
    first := Apply(db, caller, jobId);
    var s := StudentOfUser(db.students, caller.id).value;
    if first.code == 200 {
      assert db.applications[|db.applications| - 1].studentId == s.id;
      assert HasApplied(db.applications, s.id, jobId);
    }
    second := Apply(db, caller, jobId);
  }
}

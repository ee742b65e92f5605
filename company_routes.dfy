/**
 * The company API: the company's own jobs with their applicant counts, the
 * global list of open jobs, posting a job, the applicants of a job and the
 * update of an application's status.
 */
module CompanyRoutes {
  import opened Wrappers
  import opened Js
  import opened Schema
  import StudentRoutes

  const AccessDenied: Reply := Reply(403, "Access denied")
  const CompanyNotFound: Reply := Reply(404, "Company not found")

  /** The role gate each company route starts with. */
  predicate IsCompany(caller: Caller) {
    caller.role == Company
  }

  // ---------------------------------------------------------------------
  // GET /jobs

  /** `SELECT * FROM applications WHERE job_id = ?`, in table order. */
  function ApplicationsFor(apps: seq<Application>, jobId: nat): (r: seq<Application>)
    ensures forall a :: a in r <==> a in apps && a.jobId == jobId
    ensures |r| <= |apps|
  {
    if apps == [] then []
    else (if apps[0].jobId == jobId then [apps[0]] else []) + ApplicationsFor(apps[1..], jobId)
  }

  /** `(SELECT COUNT(*) FROM applications WHERE job_id = j.id)` */
  function ApplicantCount(apps: seq<Application>, jobId: nat): nat {
    |ApplicationsFor(apps, jobId)|
  }

  /** `WHERE j.company_id = ?`, in table order. */
  function JobsByCompany(js: seq<Job>, companyId: nat): (r: seq<Job>)
    ensures forall j :: j in r <==> j in js && j.companyId == companyId
  {
    if js == [] then []
    else (if js[0].companyId == companyId then [js[0]] else []) + JobsByCompany(js[1..], companyId)
  }

  datatype CountedJob = CountedJob(job: Job, applicantCount: nat)

  datatype CompanyJobsReply = CompanyJobsRefused(reply: Reply) | CompanyJobsList(jobs: seq<CountedJob>)

  /** `GET /jobs`: the caller's company's jobs, each with its number of applications. */
  function CompanyJobs(companies: seq<CompanyRow>, jobs: seq<Job>, apps: seq<Application>, caller: Caller): (r: CompanyJobsReply)
    ensures !IsCompany(caller) ==> r == CompanyJobsRefused(AccessDenied)
    ensures IsCompany(caller) && CompanyOfUser(companies, caller.id).None? ==> r == CompanyJobsRefused(CompanyNotFound)
    ensures IsCompany(caller) && CompanyOfUser(companies, caller.id).Some? ==> r.CompanyJobsList?
    ensures r.CompanyJobsList? ==>
      var c := CompanyOfUser(companies, caller.id).value;
      && IsCompany(caller) && c.userId == caller.id
      && (forall j :: j in jobs && j.companyId == c.id <==> exists i | 0 <= i < |r.jobs| :: r.jobs[i].job == j)
      && (forall i | 0 <= i < |r.jobs| :: r.jobs[i].applicantCount == |ApplicationsFor(apps, r.jobs[i].job.id)|)
  {
    if !IsCompany(caller) then CompanyJobsRefused(AccessDenied)
    else
      match CompanyOfUser(companies, caller.id)
      case None => CompanyJobsRefused(CompanyNotFound)
      case Some(c) =>
        var own := JobsByCompany(jobs, c.id);
        var r := seq(|own|, i requires 0 <= i < |own| => CountedJob(own[i], ApplicantCount(apps, own[i].id)));
        assert forall j :: j in own <==> exists i | 0 <= i < |r| :: r[i].job == j by {
          forall j | j in own ensures exists i | 0 <= i < |r| :: r[i].job == j {
            var i :| 0 <= i < |own| && own[i] == j;
            assert r[i].job == j;
          }
        }
        CompanyJobsList(r)
  }

  // ---------------------------------------------------------------------
  // GET /all-jobs

  datatype AllJobsReply = AllJobsRefused(reply: Reply) | AllJobsList(rows: seq<StudentRoutes.JoinedJob>)

  /** `GET /all-jobs`: every open job joined with its company, as students see them. */
  function AllJobs(companies: seq<CompanyRow>, jobs: seq<Job>, caller: Caller): (r: AllJobsReply)
    ensures r.AllJobsRefused? <==> !IsCompany(caller)
    ensures r.AllJobsRefused? ==> r.reply == AccessDenied
    ensures r.AllJobsList? ==> forall i | 0 <= i < |r.rows| :: r.rows[i].job in jobs && r.rows[i].job.status == Open
  {
    if !IsCompany(caller) then AllJobsRefused(AccessDenied)
    else AllJobsList(StudentRoutes.OpenJobsJoined(jobs, companies))
  }

  /** With the tables intact, a company sees every open job exactly once, in table order. */
  lemma AllJobsListsEveryOpenJob(db: Database, caller: Caller)
    requires db.Valid() && IsCompany(caller)
    ensures StudentRoutes.JobsOf(AllJobs(db.companies, db.jobs, caller).rows) == StudentRoutes.OpenJobs(db.jobs)
  {
    StudentRoutes.EveryOpenJobListedOnce(db.jobs, db.companies);
  }

  // ---------------------------------------------------------------------
  // POST /jobs

  /** What the TEXT column keeps of the posted criterion: an absent one is NULL. */
  function StoredCriterion(v: JsValue): (r: JsValue)
    ensures v == Undefined ==> r == Null
    ensures v != Undefined ==> r == v
  {
    if v == Undefined then Null else v
  }

  /**
   * `POST /jobs`. `title` is None when the body has no title (or a null
   * one), which the NOT NULL constraint rejects. The new job is open.
   */
  method PostJob(db: Database, caller: Caller, title: Option<string>, description: Option<string>, criterion: JsValue)
    returns (reply: Reply)
    requires db.Valid()
    modifies db
    ensures db.Valid()
    ensures !IsCompany(caller) ==> reply == AccessDenied && unchanged(db)
    ensures IsCompany(caller) && CompanyOfUser(old(db.companies), caller.id).None? ==> reply == CompanyNotFound && unchanged(db)
    ensures IsCompany(caller) && CompanyOfUser(old(db.companies), caller.id).Some? && title.None? ==>
      reply == ServerError && unchanged(db)
    ensures IsCompany(caller) && CompanyOfUser(old(db.companies), caller.id).Some? && title.Some? ==>
      var c := CompanyOfUser(old(db.companies), caller.id).value;
      && reply == Reply(201, "Job posted successfully")
      && db.jobs == old(db.jobs) + [Job(old(db.nextJobId), c.id, title.value, description, StoredCriterion(criterion), DefaultJobStatus)]
      && db.nextJobId == old(db.nextJobId) + 1
      && db.users == old(db.users) && db.students == old(db.students) && db.companies == old(db.companies)
      && db.applications == old(db.applications) && db.logs == old(db.logs)
      && db.nextCompanyId == old(db.nextCompanyId) && db.nextApplicationId == old(db.nextApplicationId)
      && db.nextLogId == old(db.nextLogId)
  {
    if !IsCompany(caller) {
      return AccessDenied;
    }
    var company := CompanyOfUser(db.companies, caller.id);
    if company.None? {
      return CompanyNotFound;
    }
    if title.None? {
      // NOT NULL constraint failed: jobs.title
      return ServerError;
    }
    var c := company.value;
    var row := Job(db.nextJobId, c.id, title.value, description, StoredCriterion(criterion), DefaultJobStatus);
    assert HasCompany(db.companies, c.id) by {
      var k :| 0 <= k < |db.companies| && db.companies[k] == c;
    }
    JobAppended(db.jobs, row, db.companies, db.applications, db.students, db.nextJobId, db.nextApplicationId);
    db.jobs := db.jobs + [row];
    db.nextJobId := db.nextJobId + 1;
    return Reply(201, "Job posted successfully");
  }

  /** No application can name the id the next posted job will get: a new job starts with no applicants. */
  lemma NewJobHasNoApplicants(db: Database)
    requires db.Valid()
    ensures ApplicantCount(db.applications, db.nextJobId) == 0
  {
    forall i | 0 <= i < |db.applications| ensures db.applications[i].jobId != db.nextJobId {
      assert HasJob(db.jobs, db.applications[i].jobId);
      var k :| 0 <= k < |db.jobs| && db.jobs[k].id == db.applications[i].jobId;
    }
    ApplicationsForNone(db.applications, db.nextJobId);
  }

  lemma {:induction false} ApplicationsForNone(apps: seq<Application>, jobId: nat)
    requires forall i | 0 <= i < |apps| :: apps[i].jobId != jobId
    ensures ApplicationsFor(apps, jobId) == []
    decreases |apps|
  {
    if apps != [] {
      ApplicationsForNone(apps[1..], jobId);
    }
  }

  /** A posted job goes to the end of the open listing. */
  lemma {:induction false} PostedJobIsListed(js: seq<Job>, row: Job)
    requires row.status == Open
    ensures StudentRoutes.OpenJobs(js + [row]) == StudentRoutes.OpenJobs(js) + [row]
    decreases |js|
  {
    var t := js + [row];
    if js == [] {
      assert t == [row];
      assert StudentRoutes.OpenJobs(t) == [row] + StudentRoutes.OpenJobs([]);
    } else {
      assert t[0] == js[0] && t[1..] == js[1..] + [row];
      PostedJobIsListed(js[1..], row);
      var h := if js[0].status == Open then [js[0]] else [];
      assert StudentRoutes.OpenJobs(t) == h + StudentRoutes.OpenJobs(t[1..]);
      assert StudentRoutes.OpenJobs(js) == h + StudentRoutes.OpenJobs(js[1..]);
    }
  }

  // ---------------------------------------------------------------------
  // GET /applicants/:jobId

  /** One row of the applicants join: the application, its student and the student's username. */
  datatype ApplicantRow = ApplicantRow(appId: nat, appStatus: Option<AppStatus>, student: StudentRow, username: string)

  /** `JOIN users u ON s.user_id = u.id` for one application and its student. */
  function UserMatches(a: Application, s: StudentRow, us: seq<User>): (r: seq<ApplicantRow>)
    ensures forall i | 0 <= i < |r| :: r[i].appId == a.id && r[i].appStatus == a.status && r[i].student == s
  {
    if us == [] then []
    else (if us[0].id == s.userId then [ApplicantRow(a.id, a.status, s, us[0].username)] else []) + UserMatches(a, s, us[1..])
  }

  /** `JOIN students s ON a.student_id = s.id`, then the users join, for one application. */
  function StudentMatches(a: Application, ss: seq<StudentRow>, us: seq<User>): (r: seq<ApplicantRow>)
    ensures forall i | 0 <= i < |r| :: r[i].appId == a.id && r[i].appStatus == a.status && r[i].student.id == a.studentId
  {
    if ss == [] then []
    else (if ss[0].id == a.studentId then UserMatches(a, ss[0], us) else []) + StudentMatches(a, ss[1..], us)
  }

  /** The applicants join filtered by `a.job_id = ?`, application by application. */
  function Applicants(apps: seq<Application>, ss: seq<StudentRow>, us: seq<User>, jobId: nat): seq<ApplicantRow> {
    if apps == [] then []
    else (if apps[0].jobId == jobId then StudentMatches(apps[0], ss, us) else []) + Applicants(apps[1..], ss, us, jobId)
  }

  datatype ApplicantsReply = ApplicantsRefused(reply: Reply) | ApplicantList(rows: seq<ApplicantRow>)

  /** `GET /applicants/:jobId`. Any company may read the applicants of any job. */
  function ApplicantsOf(db: Database, caller: Caller, jobId: nat): (r: ApplicantsReply)
    reads db
    ensures r.ApplicantsRefused? <==> !IsCompany(caller)
    ensures r.ApplicantsRefused? ==> r.reply == AccessDenied
    ensures r.ApplicantList? ==> r.rows == Applicants(db.applications, db.students, db.users, jobId)
  {
    if !IsCompany(caller) then ApplicantsRefused(AccessDenied)
    else ApplicantList(Applicants(db.applications, db.students, db.users, jobId))
  }

  function AppIds(rows: seq<ApplicantRow>): seq<nat> {
    seq(|rows|, i requires 0 <= i < |rows| => rows[i].appId)
  }

  function ApplicationIds(apps: seq<Application>): seq<nat> {
    seq(|apps|, i requires 0 <= i < |apps| => apps[i].id)
  }

  lemma AppIdsAppend(a: seq<ApplicantRow>, b: seq<ApplicantRow>)
    ensures AppIds(a + b) == AppIds(a) + AppIds(b)
  {
  }

  lemma {:induction false} UserMatchesNone(a: Application, s: StudentRow, us: seq<User>)
    requires forall i | 0 <= i < |us| :: us[i].id != s.userId
    ensures UserMatches(a, s, us) == []
    decreases |us|
  {
    if us != [] {
      UserMatchesNone(a, s, us[1..]);
    }
  }

  /** With unique user ids, a student with a user joins with exactly one row. */
  lemma {:induction false} UserMatchesOne(a: Application, s: StudentRow, us: seq<User>)
    requires UsersOk(us) && HasUser(us, s.userId)
    ensures AppIds(UserMatches(a, s, us)) == [a.id]
    decreases |us|
  {
    if us[0].id == s.userId {
      UserMatchesNone(a, s, us[1..]);
      assert UserMatches(a, s, us) == [ApplicantRow(a.id, a.status, s, us[0].username)];
    } else {
      var k :| 0 <= k < |us| && us[k].id == s.userId;
      assert us[1..][k - 1].id == s.userId;
      UserMatchesOne(a, s, us[1..]);
    }
  }

  lemma {:induction false} StudentMatchesNone(a: Application, ss: seq<StudentRow>, us: seq<User>)
    requires forall i | 0 <= i < |ss| :: ss[i].id != a.studentId
    ensures StudentMatches(a, ss, us) == []
    decreases |ss|
  {
    if ss != [] {
      StudentMatchesNone(a, ss[1..], us);
    }
  }

  /** With the foreign keys resolved and unique ids, each application joins with exactly one row. */
  lemma {:induction false} StudentMatchesOne(a: Application, ss: seq<StudentRow>, us: seq<User>)
    requires UsersOk(us) && StudentsOk(ss, us) && HasStudent(ss, a.studentId)
    ensures AppIds(StudentMatches(a, ss, us)) == [a.id]
    decreases |ss|
  {
    if ss[0].id == a.studentId {
      UserMatchesOne(a, ss[0], us);
      StudentMatchesNone(a, ss[1..], us);
      assert StudentMatches(a, ss, us) == UserMatches(a, ss[0], us) + [];
    } else {
      var k :| 0 <= k < |ss| && ss[k].id == a.studentId;
      assert ss[1..][k - 1].id == a.studentId;
      UserMatchesOne(a, ss[k], us);
      StudentMatchesOne(a, ss[1..], us);
      AppIdsAppend([], StudentMatches(a, ss[1..], us));
    }
  }

  /** The applicants listing of a job has one row per application to it, in table order. */
  lemma {:induction false} ApplicantsMatchApplications(apps: seq<Application>, ss: seq<StudentRow>, us: seq<User>, jobs: seq<Job>, next: nat, jobId: nat)
    requires UsersOk(us) && StudentsOk(ss, us)
    requires forall i | 0 <= i < |apps| :: HasStudent(ss, apps[i].studentId)
    ensures AppIds(Applicants(apps, ss, us, jobId)) == ApplicationIds(ApplicationsFor(apps, jobId))
    decreases |apps|
  {
    if apps != [] {
      var head := if apps[0].jobId == jobId then StudentMatches(apps[0], ss, us) else [];
      var own := if apps[0].jobId == jobId then [apps[0]] else [];
      assert AppIds(head) == ApplicationIds(own) by {
        if apps[0].jobId == jobId {
          StudentMatchesOne(apps[0], ss, us);
        }
      }
      assert forall i | 0 <= i < |apps[1..]| :: apps[1..][i] == apps[i + 1];
      ApplicantsMatchApplications(apps[1..], ss, us, jobs, next, jobId);
      AppIdsAppend(head, Applicants(apps[1..], ss, us, jobId));
      ApplicationIdsAppend(own, ApplicationsFor(apps[1..], jobId));
    }
  }

  lemma ApplicationIdsAppend(a: seq<Application>, b: seq<Application>)
    ensures ApplicationIds(a + b) == ApplicationIds(a) + ApplicationIds(b)
  {
  }

  /** So the length of a job's applicants listing is the applicant count the company's job list shows. */
  lemma ApplicantsCountAgrees(db: Database, caller: Caller, jobId: nat)
    requires db.Valid() && IsCompany(caller)
    ensures |ApplicantsOf(db, caller, jobId).rows| == ApplicantCount(db.applications, jobId)
  {
    ApplicantsMatchApplications(db.applications, db.students, db.users, db.jobs, db.nextApplicationId, jobId);
    assert |AppIds(ApplicantsOf(db, caller, jobId).rows)| == |ApplicationIds(ApplicationsFor(db.applications, jobId))|;
  }

  // ---------------------------------------------------------------------
  // PUT /application/:appId

  /** What SQLite makes of the bound `status`. */
  datatype StatusBinding = BindNull | BindStatus(status: AppStatus) | BindInvalid

  /**
   * An absent or null status binds NULL, which the CHECK constraint lets
   * through; a text naming a status binds that status; anything else fails
   * the CHECK when it reaches a row.
   */
  function Bind(v: JsValue): (r: StatusBinding)
    ensures r.BindNull? <==> v == Undefined || v == Null
    ensures r.BindStatus? <==> v.Str? && ParseAppStatus(v.s).Some?
    ensures r.BindStatus? ==> v == Str(AppStatusName(r.status))
  {
    match v
    case Undefined => BindNull
    case Null => BindNull
    case Str(s) => (match ParseAppStatus(s) case Some(st) => BindStatus(st) case None => BindInvalid)
    case _ => BindInvalid
  }

  /** Every status sent by name binds as itself. */
  lemma BindStatusName(s: AppStatus)
    ensures Bind(Str(AppStatusName(s))) == BindStatus(s)
  {
    ParseAppStatusName(s);
  }

  predicate HasApplication(apps: seq<Application>, id: nat) {
    exists i | 0 <= i < |apps| :: apps[i].id == id
  }

  /** `UPDATE applications SET status = ? WHERE id = ?` */
  function SetStatus(apps: seq<Application>, id: nat, status: Option<AppStatus>): (r: seq<Application>)
    ensures |r| == |apps|
    ensures forall i | 0 <= i < |apps| :: r[i] == if apps[i].id == id then apps[i].(status := status) else apps[i]
  {
    seq(|apps|, i requires 0 <= i < |apps| => if apps[i].id == id then apps[i].(status := status) else apps[i])
  }

  /** An update of an id no row has changes nothing. */
  lemma SetStatusAbsent(apps: seq<Application>, id: nat, status: Option<AppStatus>)
    requires !HasApplication(apps, id)
    ensures SetStatus(apps, id, status) == apps
  {
    assert forall i | 0 <= i < |apps| :: SetStatus(apps, id, status)[i] == apps[i];
  }

  /** Repeating an update changes nothing more, and the last of two updates of a row wins. */
  lemma SetStatusLastWins(apps: seq<Application>, id: nat, s1: Option<AppStatus>, s2: Option<AppStatus>)
    ensures SetStatus(SetStatus(apps, id, s1), id, s2) == SetStatus(apps, id, s2)
  {
    var a := SetStatus(SetStatus(apps, id, s1), id, s2);
    var b := SetStatus(apps, id, s2);
    assert forall i | 0 <= i < |apps| :: a[i] == b[i];
  }

  /**
   * `PUT /application/:appId`. The route does not check that the job of the
   * application belongs to the caller's company.
   */
  method UpdateApplicationStatus(db: Database, caller: Caller, appId: nat, status: JsValue) returns (reply: Reply)
    requires db.Valid()
    modifies db
    ensures db.Valid()
    ensures !IsCompany(caller) ==> reply == AccessDenied && unchanged(db)
    ensures IsCompany(caller) && Bind(status).BindInvalid? && HasApplication(old(db.applications), appId) ==>
      reply == ServerError && unchanged(db)
    ensures IsCompany(caller) && Bind(status).BindInvalid? && !HasApplication(old(db.applications), appId) ==>
      reply == Reply(200, "Status updated") && unchanged(db)
    ensures IsCompany(caller) && !Bind(status).BindInvalid? ==>
      var stored := if Bind(status).BindNull? then None else Some(Bind(status).status);
      && reply == Reply(200, "Status updated")
      && db.applications == SetStatus(old(db.applications), appId, stored)
      && db.users == old(db.users) && db.students == old(db.students) && db.companies == old(db.companies)
      && db.jobs == old(db.jobs) && db.logs == old(db.logs)
      && db.nextCompanyId == old(db.nextCompanyId) && db.nextJobId == old(db.nextJobId)
      && db.nextApplicationId == old(db.nextApplicationId) && db.nextLogId == old(db.nextLogId)
  {
    if !IsCompany(caller) {
      return AccessDenied;
    }
    var binding := Bind(status);
    if binding.BindInvalid? {
      if HasApplication(db.applications, appId) {
        // CHECK constraint failed
        return ServerError;
      }
      return Reply(200, "Status updated");
    }
    var stored := if binding.BindNull? then None else Some(binding.status);
    var updated := SetStatus(db.applications, appId, stored);
    ApplicationsUpdated(db.applications, updated, db.students, db.jobs, db.nextApplicationId);
    db.applications := updated;
    return Reply(200, "Status updated");
  }
}

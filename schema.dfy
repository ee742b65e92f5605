/**
 * The relational store behind the portal: the enumerations and defaults of
 * the DDL, one row type per table, and `Database`, the in-memory tables that
 * the route handlers read and write.
 *
 * Rows are kept in table order, which for these INTEGER PRIMARY KEY tables is
 * ascending id order; inserts append a row whose id is the table's
 * AUTOINCREMENT counter. Foreign keys are enforced (the connection turns them
 * on), which `Database.Valid` records.
 */
module Schema {
  import opened Wrappers
  import opened Js

  datatype Role = Student | Company | Admin

  function RoleName(r: Role): string {
    match r
    case Student => "student"
    case Company => "company"
    case Admin => "admin"
  }

  /** `users.status`, default `pending`. */
  datatype UserStatus = Pending | Approved

  /** `jobs.status`, default `open`. */
  datatype JobStatus = Open | Closed

  /** `applications.status`, default `applied`. */
  datatype AppStatus = Applied | Shortlisted | Interview | Rejected | Placed

  function AppStatusName(s: AppStatus): string {
    match s
    case Applied => "applied"
    case Shortlisted => "shortlisted"
    case Interview => "interview"
    case Rejected => "rejected"
    case Placed => "placed"
  }

  /** The CHECK constraint on `applications.status`: the text must name one of the five statuses. */
  function ParseAppStatus(name: string): (r: Option<AppStatus>)
    ensures r.Some? ==> AppStatusName(r.value) == name
  {
    if name == "applied" then Some(Applied)
    else if name == "shortlisted" then Some(Shortlisted)
    else if name == "interview" then Some(Interview)
    else if name == "rejected" then Some(Rejected)
    else if name == "placed" then Some(Placed)
    else None
  }

  /** Every status passes the CHECK constraint under its own name. */
  lemma ParseAppStatusName(s: AppStatus)
    ensures ParseAppStatus(AppStatusName(s)) == Some(s)
  {
  }

  const DefaultUserStatus: UserStatus := Pending
  const DefaultJobStatus: JobStatus := Open
  const DefaultAppStatus: AppStatus := Applied

  datatype User = User(id: nat, username: string, role: Role, status: UserStatus)

  /** The account seeded when no user is called `admin`: the first row of `users`, already approved. */
  const DefaultAdmin: User := User(1, "admin", Admin, Approved)

  /** `cgpa` is a REAL column that may also hold NULL or unconvertible text. */
  datatype StudentRow = StudentRow(
    id: nat, userId: nat, fullName: Option<string>, cgpa: JsValue,
    department: Option<string>, skills: Option<string>, resumePath: Option<string>)

  datatype CompanyRow = CompanyRow(id: nat, userId: nat, companyName: string, description: Option<string>)

  /** `eligibility_criteria` is a TEXT column; NULL when the poster gave none. */
  datatype Job = Job(
    id: nat, companyId: nat, title: string, description: Option<string>,
    eligibilityCriteria: JsValue, status: JobStatus)

  /** A NULL status is possible: the CHECK constraint lets NULL through. */
  datatype Application = Application(id: nat, studentId: nat, jobId: nat, status: Option<AppStatus>)

  datatype AdminLog = AdminLog(id: nat, action: string)

  /** The authenticated caller, as decoded from the request's token. */
  datatype Caller = Caller(id: nat, role: Role)

  /** An HTTP status with the `message` of the JSON body. */
  datatype Reply = Reply(code: nat, message: string)

  const ServerError: Reply := Reply(500, "Server error")

  predicate HasUser(us: seq<User>, id: nat) {
    exists k | 0 <= k < |us| :: us[k].id == id
  }

  predicate HasStudent(ss: seq<StudentRow>, id: nat) {
    exists k | 0 <= k < |ss| :: ss[k].id == id
  }

  predicate HasCompany(cs: seq<CompanyRow>, id: nat) {
    exists k | 0 <= k < |cs| :: cs[k].id == id
  }

  predicate HasJob(js: seq<Job>, id: nat) {
    exists k | 0 <= k < |js| :: js[k].id == id
  }

  /** `SELECT ... FROM students WHERE user_id = ?`, first row. */
  function StudentOfUser(ss: seq<StudentRow>, userId: nat): (r: Option<StudentRow>)
    ensures r.Some? ==> r.value in ss && r.value.userId == userId
    ensures r.None? <==> forall k | 0 <= k < |ss| :: ss[k].userId != userId
  {
    if ss == [] then None
    else if ss[0].userId == userId then Some(ss[0])
    else StudentOfUser(ss[1..], userId)
  }

  /** `SELECT id FROM companies WHERE user_id = ?`, first row. */
  function CompanyOfUser(cs: seq<CompanyRow>, userId: nat): (r: Option<CompanyRow>)
    ensures r.Some? ==> r.value in cs && r.value.userId == userId
    ensures r.None? <==> forall k | 0 <= k < |cs| :: cs[k].userId != userId
  {
    if cs == [] then None
    else if cs[0].userId == userId then Some(cs[0])
    else CompanyOfUser(cs[1..], userId)
  }

  /** `SELECT ... FROM users WHERE id = ?`, first row. */
  function UserById(us: seq<User>, id: nat): (r: Option<User>)
    ensures r.Some? ==> r.value in us && r.value.id == id
    ensures r.None? <==> !HasUser(us, id)
  {
    if us == [] then None
    else if us[0].id == id then Some(us[0])
    else
      var r := UserById(us[1..], id);
      assert HasUser(us, id) ==> us[0].id == id || HasUser(us[1..], id) by {
        if HasUser(us, id) {
          var k :| 0 <= k < |us| && us[k].id == id;
          if k > 0 { assert us[1..][k - 1].id == id; }
        }
      }
      assert HasUser(us[1..], id) ==> HasUser(us, id) by {
        if HasUser(us[1..], id) {
          var k :| 0 <= k < |us[1..]| && us[1..][k].id == id;
          assert us[k + 1].id == id;
        }
      }
      r
  }

  /** Ids grow along the users table (rows are appended), so they are unique. */
  predicate UsersOk(us: seq<User>) {
    forall i, j | 0 <= i < j < |us| :: us[i].id < us[j].id
  }

  /** Ascending ids; every student row belongs to a user. */
  predicate StudentsOk(ss: seq<StudentRow>, us: seq<User>) {
    && (forall i, j | 0 <= i < j < |ss| :: ss[i].id < ss[j].id)
    && (forall i | 0 <= i < |ss| :: HasUser(us, ss[i].userId))
  }

  /** Ascending ids below the AUTOINCREMENT counter; every company row belongs to a user. */
  predicate CompaniesOk(cs: seq<CompanyRow>, us: seq<User>, next: nat) {
    && (forall i, j | 0 <= i < j < |cs| :: cs[i].id < cs[j].id)
    && (forall i | 0 <= i < |cs| :: cs[i].id < next)
    && (forall i | 0 <= i < |cs| :: HasUser(us, cs[i].userId))
  }

  /** Ascending ids below the counter; every job belongs to a company. */
  predicate JobsOk(js: seq<Job>, cs: seq<CompanyRow>, next: nat) {
    && (forall i, j | 0 <= i < j < |js| :: js[i].id < js[j].id)
    && (forall i | 0 <= i < |js| :: js[i].id < next)
    && (forall i | 0 <= i < |js| :: HasCompany(cs, js[i].companyId))
  }

  /** Ascending ids below the counter; every application names an existing student and job. */
  predicate ApplicationsOk(apps: seq<Application>, ss: seq<StudentRow>, js: seq<Job>, next: nat) {
    && (forall i, j | 0 <= i < j < |apps| :: apps[i].id < apps[j].id)
    && (forall i | 0 <= i < |apps| :: apps[i].id < next)
    && (forall i | 0 <= i < |apps| :: HasStudent(ss, apps[i].studentId))
    && (forall i | 0 <= i < |apps| :: HasJob(js, apps[i].jobId))
  }

  /** Ascending ids below the counter. */
  predicate LogsOk(ls: seq<AdminLog>, next: nat) {
    && (forall i, j | 0 <= i < j < |ls| :: ls[i].id < ls[j].id)
    && (forall i | 0 <= i < |ls| :: ls[i].id < next)
  }

  /** With ascending ids, the lookup by id finds the one row with that id. */
  lemma {:induction false} UserByIdFinds(us: seq<User>, u: User)
    requires UsersOk(us) && u in us
    ensures UserById(us, u.id) == Some(u)
    decreases |us|
  {
    if us[0] != u {
      assert u in us[1..];
      assert us[0].id != u.id by {
        var k :| 0 <= k < |us| && us[k] == u;
      }
      UserByIdFinds(us[1..], u);
    }
  }

  /**
   * The portal's tables. Each table the routes insert into has its
   * AUTOINCREMENT counter; users and students are only updated here (their
   * rows are created at registration, which is not part of this model).
   */
  class Database {
    var users: seq<User>
    var students: seq<StudentRow>
    var companies: seq<CompanyRow>
    var jobs: seq<Job>
    var applications: seq<Application>
    var logs: seq<AdminLog>
    var nextCompanyId: nat
    var nextJobId: nat
    var nextApplicationId: nat
    var nextLogId: nat

    /** Primary keys ascend along each table and stay below their counters; foreign keys resolve. */
    predicate Valid()
      reads this
    {
      && UsersOk(users)
      && StudentsOk(students, users)
      && CompaniesOk(companies, users, nextCompanyId)
      && JobsOk(jobs, companies, nextJobId)
      && ApplicationsOk(applications, students, jobs, nextApplicationId)
      && LogsOk(logs, nextLogId)
    }

    /**
     * A new database file after initialisation: the tables as the schema
     * creates them, with the default administrator as the only user.
     */
    constructor ()
      ensures Valid()
      ensures users == [DefaultAdmin]
      ensures students == [] && companies == [] && jobs == [] && applications == [] && logs == []
      ensures nextCompanyId == 1 && nextJobId == 1 && nextApplicationId == 1 && nextLogId == 1
    {
      users, students, companies, jobs, applications, logs := [DefaultAdmin], [], [], [], [], [];
      nextCompanyId, nextJobId, nextApplicationId, nextLogId := 1, 1, 1, 1;
    }
  }

  // ---------------------------------------------------------------------
  // How the integrity of the tables survives each kind of write.

  /** An update that keeps every user's id keeps the users' integrity and every reference to them. */
  lemma {:induction false} UsersUpdated(us: seq<User>, us2: seq<User>, ss: seq<StudentRow>, cs: seq<CompanyRow>, next: nat)
    requires |us2| == |us| && forall i | 0 <= i < |us| :: us2[i].id == us[i].id
    requires UsersOk(us) && StudentsOk(ss, us) && CompaniesOk(cs, us, next)
    ensures UsersOk(us2) && StudentsOk(ss, us2) && CompaniesOk(cs, us2, next)
    ensures forall k :: HasUser(us, k) <==> HasUser(us2, k)
  {
    forall k ensures HasUser(us, k) <==> HasUser(us2, k) {
      if HasUser(us, k) {
        var i :| 0 <= i < |us| && us[i].id == k;
        assert us2[i].id == k;
      }
      if HasUser(us2, k) {
        var i :| 0 <= i < |us2| && us2[i].id == k;
        assert us[i].id == k;
      }
    }
  }

  /** An update that keeps every student's id and user keeps the students' integrity and every reference to them. */
  lemma {:induction false} StudentsUpdated(
    ss: seq<StudentRow>, ss2: seq<StudentRow>, us: seq<User>, apps: seq<Application>, js: seq<Job>, next: nat)
    requires |ss2| == |ss| && forall i | 0 <= i < |ss| :: ss2[i].id == ss[i].id && ss2[i].userId == ss[i].userId
    requires StudentsOk(ss, us) && ApplicationsOk(apps, ss, js, next)
    ensures StudentsOk(ss2, us) && ApplicationsOk(apps, ss2, js, next)
  {
    forall k | HasStudent(ss, k) ensures HasStudent(ss2, k) {
      var i :| 0 <= i < |ss| && ss[i].id == k;
      assert ss2[i].id == k;
    }
  }

  /** Appending a company under the counter keeps the companies' integrity and every reference to them. */
  lemma {:induction false} CompanyAppended(cs: seq<CompanyRow>, row: CompanyRow, us: seq<User>, js: seq<Job>, next: nat, nextJob: nat)
    requires CompaniesOk(cs, us, next) && JobsOk(js, cs, nextJob)
    requires row.id == next && HasUser(us, row.userId)
    ensures CompaniesOk(cs + [row], us, next + 1) && JobsOk(js, cs + [row], nextJob)
  {
    forall k | HasCompany(cs, k) ensures HasCompany(cs + [row], k) {
      var i :| 0 <= i < |cs| && cs[i].id == k;
      assert (cs + [row])[i].id == k;
    }
  }

  /** Appending a job under the counter keeps the jobs' integrity and every reference to them. */
  lemma {:induction false} JobAppended(
    js: seq<Job>, row: Job, cs: seq<CompanyRow>, apps: seq<Application>, ss: seq<StudentRow>, next: nat, nextApp: nat)
    requires JobsOk(js, cs, next) && ApplicationsOk(apps, ss, js, nextApp)
    requires row.id == next && HasCompany(cs, row.companyId)
    ensures JobsOk(js + [row], cs, next + 1) && ApplicationsOk(apps, ss, js + [row], nextApp)
  {
    forall k | HasJob(js, k) ensures HasJob(js + [row], k) {
      var i :| 0 <= i < |js| && js[i].id == k;
      assert (js + [row])[i].id == k;
    }
  }

  /** Appending an application under the counter for an existing student and job keeps the integrity. */
  lemma ApplicationAppended(apps: seq<Application>, row: Application, ss: seq<StudentRow>, js: seq<Job>, next: nat)
    requires ApplicationsOk(apps, ss, js, next)
    requires row.id == next && HasStudent(ss, row.studentId) && HasJob(js, row.jobId)
    ensures ApplicationsOk(apps + [row], ss, js, next + 1)
  {
  }

  /** An update that keeps each application's id, student and job keeps the integrity. */
  lemma ApplicationsUpdated(apps: seq<Application>, apps2: seq<Application>, ss: seq<StudentRow>, js: seq<Job>, next: nat)
    requires |apps2| == |apps|
    requires forall i | 0 <= i < |apps| :: apps2[i].id == apps[i].id && apps2[i].studentId == apps[i].studentId && apps2[i].jobId == apps[i].jobId
    requires ApplicationsOk(apps, ss, js, next)
    ensures ApplicationsOk(apps2, ss, js, next)
  {
  }

  /** Appending a log entry under the counter keeps the log's integrity. */
  lemma LogAppended(ls: seq<AdminLog>, row: AdminLog, next: nat)
    requires LogsOk(ls, next) && row.id == next
    ensures LogsOk(ls + [row], next + 1)
  {
  }
}

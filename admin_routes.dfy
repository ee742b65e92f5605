/**
 * The administrator API: the role gate, the user list, approving a user
 * (with the audit log entry and the company profile it may create) and the
 * placement report.
 */
module AdminRoutes {
  import opened Wrappers
  import opened Js
  import opened Schema

  const AdminDenied: Reply := Reply(403, "Admin access denied")

  /** The `isAdmin` middleware: it lets through administrators only. */
  predicate IsAdmin(caller: Caller) {
    caller.role == Admin
  }

  datatype UsersReply = UsersDenied(reply: Reply) | UserList(users: seq<User>)

  /** `GET /users`: every user, in table order, for an administrator. */
  function ListUsers(users: seq<User>, caller: Caller): (r: UsersReply)
    ensures r.UsersDenied? <==> !IsAdmin(caller)
    ensures r.UsersDenied? ==> r.reply == AdminDenied
    ensures r.UserList? ==> r.users == users
  {
    if !IsAdmin(caller) then UsersDenied(AdminDenied) else UserList(users)
  }

  // ---------------------------------------------------------------------
  // PUT /approve/:userId

  /** `UPDATE users SET status = "approved" WHERE id = ?` */
  function ApproveRows(us: seq<User>, userId: nat): (r: seq<User>)
    ensures |r| == |us|
    ensures forall i | 0 <= i < |us| ::
      r[i] == if us[i].id == userId then us[i].(status := Approved) else us[i]
  {
    seq(|us|, i requires 0 <= i < |us| => if us[i].id == userId then us[i].(status := Approved) else us[i])
  }

  /** The audit line `Approved <role>: <username>`. */
  function ApprovalAction(u: User): string {
    "Approved " + RoleName(u.role) + ": " + u.username
  }

  predicate HasCompanyOf(cs: seq<CompanyRow>, userId: nat) {
    exists i | 0 <= i < |cs| :: cs[i].userId == userId
  }

  /** The writes of a successful approval of `u`, a row of the users table. */
  method RecordApproval(db: Database, u: User)
    requires db.Valid() && u in db.users
    modifies db
    ensures db.Valid()
    ensures var addCompany := u.role == Company && !HasCompanyOf(old(db.companies), u.id);
      && db.users == ApproveRows(old(db.users), u.id)
      && db.logs == old(db.logs) + [AdminLog(old(db.nextLogId), ApprovalAction(u))]
      && db.nextLogId == old(db.nextLogId) + 1
      && db.companies == old(db.companies)
           + (if addCompany then [CompanyRow(old(db.nextCompanyId), u.id, u.username, None)] else [])
      && db.nextCompanyId == old(db.nextCompanyId) + (if addCompany then 1 else 0)
      && db.students == old(db.students) && db.jobs == old(db.jobs) && db.applications == old(db.applications)
      && db.nextJobId == old(db.nextJobId) && db.nextApplicationId == old(db.nextApplicationId)
  {
    ApproveAndLog(db, u);
    if u.role == Company && !HasCompanyOf(db.companies, u.id) {
      AddCompanyProfile(db, u);
    }
  }

  /** The status update and the audit log entry. */
  method ApproveAndLog(db: Database, u: User)
    requires db.Valid() && u in db.users
    modifies db
    ensures db.Valid() && HasUser(db.users, u.id)
    ensures db.users == ApproveRows(old(db.users), u.id)
    ensures db.logs == old(db.logs) + [AdminLog(old(db.nextLogId), ApprovalAction(u))]
    ensures db.nextLogId == old(db.nextLogId) + 1
    ensures db.companies == old(db.companies) && db.nextCompanyId == old(db.nextCompanyId)
    ensures db.students == old(db.students) && db.jobs == old(db.jobs) && db.applications == old(db.applications)
    ensures db.nextJobId == old(db.nextJobId) && db.nextApplicationId == old(db.nextApplicationId)
  {
    var before := db.users;
    assert HasUser(before, u.id);
    db.users := ApproveRows(db.users, u.id);
    UsersUpdated(before, db.users, db.students, db.companies, db.nextCompanyId);
    var entry := AdminLog(db.nextLogId, ApprovalAction(u));
    LogAppended(db.logs, entry, db.nextLogId);
    db.logs := db.logs + [entry];
    db.nextLogId := db.nextLogId + 1;
  }

  /** `INSERT INTO companies (user_id, company_name) VALUES (?, ?)` with the username as the name. */
  method AddCompanyProfile(db: Database, u: User)
    requires db.Valid() && HasUser(db.users, u.id)
    modifies db
    ensures db.Valid()
    ensures db.companies == old(db.companies) + [CompanyRow(old(db.nextCompanyId), u.id, u.username, None)]
    ensures db.nextCompanyId == old(db.nextCompanyId) + 1
    ensures db.users == old(db.users) && db.logs == old(db.logs) && db.nextLogId == old(db.nextLogId)
    ensures db.students == old(db.students) && db.jobs == old(db.jobs) && db.applications == old(db.applications)
    ensures db.nextJobId == old(db.nextJobId) && db.nextApplicationId == old(db.nextApplicationId)
  {
    var row := CompanyRow(db.nextCompanyId, u.id, u.username, None);
    CompanyAppended(db.companies, row, db.users, db.jobs, db.nextCompanyId, db.nextJobId);
    db.companies := db.companies + [row];
    db.nextCompanyId := db.nextCompanyId + 1;
  }

  /**
   * `PUT /approve/:userId`. An unknown user makes the handler throw after
   * the (empty) update, so nothing changes and the reply is the generic
   * error. Approving an approved user approves it again and logs again.
   */
  method Approve(db: Database, caller: Caller, userId: nat) returns (reply: Reply)
    requires db.Valid()
    modifies db
    ensures db.Valid()
    ensures !IsAdmin(caller) ==> reply == AdminDenied && unchanged(db)
    ensures IsAdmin(caller) && !HasUser(old(db.users), userId) ==> reply == ServerError && unchanged(db)
    ensures IsAdmin(caller) && HasUser(old(db.users), userId) ==>
      var u := UserById(old(db.users), userId).value;
      var addCompany := u.role == Company && !HasCompanyOf(old(db.companies), userId);
      && reply == Reply(200, "User approved")
      && db.users == ApproveRows(old(db.users), userId)
      && db.logs == old(db.logs) + [AdminLog(old(db.nextLogId), ApprovalAction(u))]
      && db.nextLogId == old(db.nextLogId) + 1
      && db.companies == old(db.companies)
           + (if addCompany then [CompanyRow(old(db.nextCompanyId), userId, u.username, None)] else [])
      && db.nextCompanyId == old(db.nextCompanyId) + (if addCompany then 1 else 0)
      && db.students == old(db.students) && db.jobs == old(db.jobs) && db.applications == old(db.applications)
      && db.nextJobId == old(db.nextJobId) && db.nextApplicationId == old(db.nextApplicationId)
  {
    if !IsAdmin(caller) {
      return AdminDenied;
    }
    var found := UserById(db.users, userId);
    if found.None? {
      // user[0] is undefined: reading its role throws
      return ServerError;
    }
    RecordApproval(db, found.value);
    return Reply(200, "User approved");
  }

  /** Approving a company twice creates its company profile at most once. */
  method ApproveTwice(db: Database, caller: Caller, userId: nat) returns (first: Reply, second: Reply)
    requires db.Valid() && IsAdmin(caller) && HasUser(db.users, userId)
    modifies db
    ensures first == Reply(200, "User approved") && second == Reply(200, "User approved")
    ensures |db.companies| <= |old(db.companies)| + 1
    ensures |db.logs| == |old(db.logs)| + 2
  {
    first := Approve(db, caller, userId);
    var u := UserById(old(db.users), userId).value;
    ghost var j :| 0 <= j < |old(db.users)| && old(db.users)[j] == u;
    assert db.users[j] == u.(status := Approved);
    UserByIdFinds(db.users, db.users[j]);
    if u.role == Company {
      assert HasCompanyOf(db.companies, userId) by {
        if HasCompanyOf(old(db.companies), userId) {
          var i :| 0 <= i < |old(db.companies)| && old(db.companies)[i].userId == userId;
          assert db.companies[i].userId == userId;
        } else {
          assert db.companies[|db.companies| - 1].userId == userId;
        }
      }
    }
    second := Approve(db, caller, userId);
  }

  // ---------------------------------------------------------------------
  // GET /reports

  /** `SELECT student_id FROM applications WHERE status = 'placed'`, as a set. */
  function PlacedIds(apps: seq<Application>): (r: set<nat>)
    ensures forall id :: id in r <==> exists i | 0 <= i < |apps| :: apps[i].studentId == id && apps[i].status == Some(Placed)
  {
    set i | 0 <= i < |apps| && apps[i].status == Some(Placed) :: apps[i].studentId
  }

  predicate IsPending(u: User, role: Role) {
    u.role == role && u.status == Pending
  }

  /** `COUNT(*) FROM users WHERE role = ? AND status = "pending"` */
  function CountPending(us: seq<User>, role: Role): (r: nat)
    ensures r <= |us|
    ensures r == 0 <==> forall i | 0 <= i < |us| :: !IsPending(us[i], role)
    ensures r == |us| <==> forall i | 0 <= i < |us| :: IsPending(us[i], role)
  {
    if us == [] then 0
    else (if IsPending(us[0], role) then 1 else 0) + CountPending(us[1..], role)
  }

  /** Approving a pending account of the role takes it off the pending count; nothing else moves. */
  lemma {:induction false} ApprovalLowersPending(us: seq<User>, userId: nat, role: Role)
    requires UsersOk(us)
    ensures CountPending(ApproveRows(us, userId), role)
      == CountPending(us, role) - (if exists i | 0 <= i < |us| :: us[i].id == userId && IsPending(us[i], role) then 1 else 0)
    decreases |us|
  {
    if us != [] {
      assert ApproveRows(us, userId)[1..] == ApproveRows(us[1..], userId);
      ApprovalLowersPending(us[1..], userId, role);
      if us[0].id == userId {
        assert forall i | 1 <= i < |us| :: us[i].id != userId;
        assert !exists i | 0 <= i < |us[1..]| :: us[1..][i].id == userId && IsPending(us[1..][i], role);
      } else {
        assert (exists i | 0 <= i < |us| :: us[i].id == userId && IsPending(us[i], role))
          <==> (exists i | 0 <= i < |us[1..]| :: us[1..][i].id == userId && IsPending(us[1..][i], role));
      }
    }
  }

  /** `COUNT(*)` of a department's group. */
  function CountDept(ss: seq<StudentRow>, d: Option<string>): (r: nat)
    ensures r <= |ss|
  {
    if ss == [] then 0 else (if ss[0].department == d then 1 else 0) + CountDept(ss[1..], d)
  }

  /** The `placed` column of a department's group: its students with a placed application. */
  function CountDeptPlaced(ss: seq<StudentRow>, d: Option<string>, placed: set<nat>): (r: nat)
    ensures r <= CountDept(ss, d)
  {
    if ss == [] then 0
    else (if ss[0].department == d && ss[0].id in placed then 1 else 0) + CountDeptPlaced(ss[1..], d, placed)
  }

  /** The departments of the students, each once, in order of first appearance (NULL is a group too). */
  function Departments(ss: seq<StudentRow>): (r: seq<Option<string>>)
    ensures forall i, j | 0 <= i < j < |r| :: r[i] != r[j]
    ensures forall d :: d in r <==> exists k | 0 <= k < |ss| :: ss[k].department == d
    decreases |ss|
  {
    if ss == [] then []
    else
      var init := Departments(ss[..|ss| - 1]);
      var d := ss[|ss| - 1].department;
      assert forall k | 0 <= k < |ss| - 1 :: ss[..|ss| - 1][k] == ss[k];
      if d in init then init else init + [d]
  }

  datatype DeptStat = DeptStat(department: Option<string>, total: nat, placed: nat)

  /** `GROUP BY department` with the total and the placed count of each group. */
  function DeptStats(ss: seq<StudentRow>, apps: seq<Application>): (r: seq<DeptStat>)
    ensures |r| == |Departments(ss)|
    ensures forall i | 0 <= i < |r| ::
      r[i].department == Departments(ss)[i] && r[i].total == CountDept(ss, r[i].department)
      && r[i].placed == CountDeptPlaced(ss, r[i].department, PlacedIds(apps))
  {
    var ds := Departments(ss);
    var placed := PlacedIds(apps);
    seq(|ds|, i requires 0 <= i < |ds| => DeptStat(ds[i], CountDept(ss, ds[i]), CountDeptPlaced(ss, ds[i], placed)))
  }

  /**
   * `ORDER BY created_at DESC LIMIT 5`: the five newest entries, newest
   * first (ties on the timestamp are broken by insertion order, newest first).
   */
  function RecentActions(logs: seq<AdminLog>): (r: seq<AdminLog>)
    ensures |r| == if |logs| < 5 then |logs| else 5
    ensures forall i | 0 <= i < |r| :: r[i] == logs[|logs| - 1 - i]
  {
    var n := if |logs| < 5 then |logs| else 5;
    seq(n, i requires 0 <= i < n => logs[|logs| - 1 - i])
  }

  datatype Report = Report(
    total: nat, placed: nat, unplaced: int, pendingStudents: nat, pendingCompanies: nat,
    deptStats: seq<DeptStat>, recentActions: seq<AdminLog>)

  datatype ReportsReply = ReportsDenied(reply: Reply) | ReportOk(report: Report)

  /** `GET /reports` */
  function Reports(db: Database, caller: Caller): (r: ReportsReply)
    reads db
    ensures r.ReportsDenied? <==> !IsAdmin(caller)
    ensures r.ReportsDenied? ==> r.reply == AdminDenied
    ensures r.ReportOk? ==> r.report.unplaced == r.report.total - r.report.placed
  {
    if !IsAdmin(caller) then ReportsDenied(AdminDenied)
    else
      var total := |db.students|;
      var placed := |PlacedIds(db.applications)|;
      ReportOk(Report(
        total, placed, total - placed,
        CountPending(db.users, Student), CountPending(db.users, Company),
        DeptStats(db.students, db.applications), RecentActions(db.logs)))
  }

  function StudentIdSet(ss: seq<StudentRow>): set<nat> {
    set i | 0 <= i < |ss| :: ss[i].id
  }

  lemma {:induction false} StudentIdSetSize(ss: seq<StudentRow>)
    ensures |StudentIdSet(ss)| <= |ss|
    decreases |ss|
  {
    if ss != [] {
      var init := ss[..|ss| - 1];
      StudentIdSetSize(init);
      assert StudentIdSet(ss) == StudentIdSet(init) + {ss[|ss| - 1].id} by {
        forall x | x in StudentIdSet(ss) ensures x in StudentIdSet(init) + {ss[|ss| - 1].id} {
          var i :| 0 <= i < |ss| && ss[i].id == x;
          if i < |ss| - 1 { assert init[i].id == x; }
        }
        forall x | x in StudentIdSet(init) ensures x in StudentIdSet(ss) {
          var i :| 0 <= i < |init| && init[i].id == x;
          assert ss[i].id == x;
        }
      }
    } else {
      assert StudentIdSet(ss) == {};
    }
  }

  lemma SubsetSize<T>(a: set<T>, b: set<T>)
    requires a <= b
    ensures |a| <= |b|
  {
    assert b == a + (b - a);
  }

  /** With the foreign keys in force, no more students are placed than there are students: `unplaced` is never negative. */
  lemma PlacedAtMostTotal(db: Database, caller: Caller)
    requires db.Valid() && IsAdmin(caller)
    ensures Reports(db, caller).report.placed <= Reports(db, caller).report.total
    ensures Reports(db, caller).report.unplaced >= 0
  {
    assert PlacedIds(db.applications) <= StudentIdSet(db.students) by {
      forall id | id in PlacedIds(db.applications) ensures id in StudentIdSet(db.students) {
        var i :| 0 <= i < |db.applications| && db.applications[i].studentId == id && db.applications[i].status == Some(Placed);
        assert HasStudent(db.students, db.applications[i].studentId);
        var k :| 0 <= k < |db.students| && db.students[k].id == id;
      }
    }
    SubsetSize(PlacedIds(db.applications), StudentIdSet(db.students));
    StudentIdSetSize(db.students);
  }

  /** Σ over `ds` of the groups' totals. */
  function SumTotals(ds: seq<Option<string>>, ss: seq<StudentRow>): nat {
    if ds == [] then 0 else CountDept(ss, ds[0]) + SumTotals(ds[1..], ss)
  }

  function Indicator(ds: seq<Option<string>>, d: Option<string>): nat {
    if ds == [] then 0 else (if ds[0] == d then 1 else 0) + Indicator(ds[1..], d)
  }

  lemma {:induction false} IndicatorOnce(ds: seq<Option<string>>, d: Option<string>)
    requires forall i, j | 0 <= i < j < |ds| :: ds[i] != ds[j]
    ensures Indicator(ds, d) == if d in ds then 1 else 0
    decreases |ds|
  {
    if ds != [] {
      IndicatorOnce(ds[1..], d);
      if ds[0] == d {
        assert d !in ds[1..] by {
          forall i | 0 <= i < |ds[1..]| ensures ds[1..][i] != d { assert ds[i + 1] != ds[0]; }
        }
      }
    }
  }

  lemma {:induction false} SumTotalsStep(ds: seq<Option<string>>, ss: seq<StudentRow>)
    requires ss != []
    ensures SumTotals(ds, ss) == SumTotals(ds, ss[1..]) + Indicator(ds, ss[0].department)
    decreases |ds|
  {
    if ds != [] {
      SumTotalsStep(ds[1..], ss);
    }
  }

  lemma {:induction false} SumTotalsCoversAll(ds: seq<Option<string>>, ss: seq<StudentRow>)
    requires forall i, j | 0 <= i < j < |ds| :: ds[i] != ds[j]
    requires forall k | 0 <= k < |ss| :: ss[k].department in ds
    ensures SumTotals(ds, ss) == |ss|
    decreases |ss|
  {
    if ss == [] {
      SumTotalsEmpty(ds, ss);
    } else {
      SumTotalsStep(ds, ss);
      IndicatorOnce(ds, ss[0].department);
      assert forall k | 0 <= k < |ss[1..]| :: ss[1..][k] == ss[k + 1];
      SumTotalsCoversAll(ds, ss[1..]);
    }
  }

  lemma {:induction false} SumTotalsEmpty(ds: seq<Option<string>>, ss: seq<StudentRow>)
    requires ss == []
    ensures SumTotals(ds, ss) == 0
    decreases |ds|
  {
    if ds != [] {
      SumTotalsEmpty(ds[1..], ss);
    }
  }

  function SumStatTotals(stats: seq<DeptStat>): nat {
    if stats == [] then 0 else stats[0].total + SumStatTotals(stats[1..])
  }

  lemma {:induction false} SumStatTotalsIs(stats: seq<DeptStat>, ds: seq<Option<string>>, ss: seq<StudentRow>)
    requires |stats| == |ds|
    requires forall i | 0 <= i < |ds| :: stats[i].total == CountDept(ss, ds[i])
    ensures SumStatTotals(stats) == SumTotals(ds, ss)
    decreases |ds|
  {
    if ds != [] {
      SumStatTotalsIs(stats[1..], ds[1..], ss);
    }
  }

  /** The department groups partition the students: their totals add up to the student count. */
  lemma DeptTotalsPartition(ss: seq<StudentRow>, apps: seq<Application>)
    ensures SumStatTotals(DeptStats(ss, apps)) == |ss|
    ensures forall st | st in DeptStats(ss, apps) :: st.placed <= st.total && st.total > 0
  {
    var ds := Departments(ss);
    SumStatTotalsIs(DeptStats(ss, apps), ds, ss);
    SumTotalsCoversAll(ds, ss);
    forall st | st in DeptStats(ss, apps) ensures st.total > 0 {
      var i :| 0 <= i < |DeptStats(ss, apps)| && DeptStats(ss, apps)[i] == st;
      assert ds[i] in ds;
      var k :| 0 <= k < |ss| && ss[k].department == ds[i];
      CountDeptPositive(ss, ds[i], k);
    }
  }

  lemma {:induction false} CountDeptPositive(ss: seq<StudentRow>, d: Option<string>, k: nat)
    requires k < |ss| && ss[k].department == d
    ensures CountDept(ss, d) > 0
    decreases |ss|
  {
    if k > 0 {
      CountDeptPositive(ss[1..], d, k - 1);
    }
  }

  /** The recent actions are the newest log entries, newest first; every entry left out is older than all shown. */
  lemma RecentActionsNewest(logs: seq<AdminLog>, nextLogId: nat)
    requires LogsOk(logs, nextLogId)
    ensures var r := RecentActions(logs);
      && (forall i, j | 0 <= i < j < |r| :: r[i].id > r[j].id)
      && (forall l | l in logs && l !in r :: forall x | x in r :: l.id < x.id)
  {
    var r := RecentActions(logs);
    forall i, j | 0 <= i < j < |r| ensures r[i].id > r[j].id {
      assert r[i] == logs[|logs| - 1 - i] && r[j] == logs[|logs| - 1 - j];
    }
    forall a | |logs| - |r| <= a < |logs| ensures logs[a] in r {
      assert r[|logs| - 1 - a] == logs[a];
    }
    forall l, x | l in logs && l !in r && x in r
      ensures l.id < x.id
    {
      var a :| 0 <= a < |logs| && logs[a] == l;
      var b :| 0 <= b < |r| && r[b] == x;
      assert a < |logs| - |r|;
      assert x == logs[|logs| - 1 - b];
    }
  }
}

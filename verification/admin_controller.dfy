/** The employee-facing controllers: staff login, the report list and its
    district scoping, status updates, and the Super Admin account
    management. `employee` is what the employee middleware attached to the
    request; it is absent for a citizen token, in which case every handler
    that reads it fails with a server error. */
module AdminController {
  import opened Common
  import opened Store
  import opened Tokens
  import opened Sorting
  import opened Employees
  import opened Reports

  const LOGIN_INACTIVE: string := "Invalid credentials or account is inactive."
  const LOGIN_INVALID: string := "Invalid credentials."
  const LOGGED_IN: string := "Logged in successfully."
  const REPORTS_FETCHED: string := "Reports fetched successfully."
  const REPORTS_FAILED: string := "Server error while fetching reports."
  const EMAIL_TAKEN: string := "An employee with this email already exists."
  const EMPLOYEE_CREATED: string := "Employee account created successfully."
  const REGISTRATION_FAILED: string := "Server error during employee registration."
  const REPORT_NOT_FOUND: string := "Report not found."
  const OUT_OF_DISTRICT: string := "Permission denied. You can only update reports in your own district."
  const STATUS_UPDATED: string := "Report status updated successfully."
  const STATUS_FAILED: string := "Server error while updating report status."
  const EMPLOYEES_FETCHED: string := "All employee accounts fetched successfully."
  const INVALID_IS_ACTIVE: string := "Invalid 'isActive' status provided."
  const EMPLOYEE_NOT_FOUND: string := "Employee not found."
  const ACTIVATED: string := "Employee account has been activated."
  const DEACTIVATED: string := "Employee account has been deactivated."
  const REPORT_FETCHED: string := "Report details fetched successfully."

  // ---------------------------------------------------------------------
  // Login

  /** `login`: an unknown or deactivated account and a wrong password are
      both 401, with different messages; on success the token carries the
      account's id, role and district and lives eight hours. */
  function AdminLogin(staff: Staff, crypto: Crypto, email: string, password: string): (r: Reply<Session>)
    ensures r.Ok? <==>
      && FindByEmail(staff, email).Some?
      && staff.slots[FindByEmail(staff, email).value].value.isActive
      && crypto.matches(password, staff.slots[FindByEmail(staff, email).value].value.passwordHash)
    ensures FindByEmail(staff, email).None? ==> r == Err(401, LOGIN_INACTIVE)
    ensures FindByEmail(staff, email).Some? && !staff.slots[FindByEmail(staff, email).value].value.isActive ==>
      r == Err(401, LOGIN_INACTIVE)
    ensures r.Err? ==> r.status == 401
    ensures r.Ok? ==>
      var id := FindByEmail(staff, email).value;
      && r.status == 200
      && r.body.payload == Payload(None, Some(ClaimOf(id, staff.slots[id].value)))
      && r.body.lifetime == 8 * 60 * 60
  {
    match FindByEmail(staff, email)
    case None => Err(UNAUTHORIZED, LOGIN_INACTIVE)
    case Some(id) =>
      var account := staff.slots[id].value;
      if !account.isActive then Err(UNAUTHORIZED, LOGIN_INACTIVE)
      else if !crypto.matches(password, account.passwordHash) then Err(UNAUTHORIZED, LOGIN_INVALID)
      else Ok(OK, LOGGED_IN, EmployeeSession(ClaimOf(id, account)))
  }

  // ---------------------------------------------------------------------
  // Reports

  /** The list is narrowed to one district exactly when the caller's role is
      `"Employee"` and its token carries a non-empty district. */
  predicate Scoped(claim: EmployeeClaim) {
    claim.role == EMPLOYEE && claim.district.Some? && claim.district.value != ""
  }

  /** Whether a report appears in the caller's list. */
  predicate Visible(claim: EmployeeClaim, report: Report) {
    !Scoped(claim) || report.location.district == claim.district.value
  }

  /** The stored reports the caller may see, each once, in id order. */
  function VisibleRows(reports: Reports, claim: EmployeeClaim): (rows: seq<Row<Report>>)
    ensures forall row :: row in rows ==>
      reports.Get(row.id) == Some(row.value) && Visible(claim, row.value)
    ensures forall id: Id :: reports.Has(id) && Visible(claim, reports.slots[id].value) ==>
      Row(id, reports.slots[id].value) in rows
    ensures multiset(rows) <= multiset(reports.Rows())
  {
    var all := reports.Rows();
    var rows := Where(all, (row: Row<Report>) => Visible(claim, row.value));
    assert forall k :: 0 <= k < |rows| ==> rows[k] in all;
    rows
  }

  /** The sort key of `.sort({ createdAt: -1 })`. */
  function CreatedAt(row: Row<Report>): int {
    row.value.createdAt
  }

  /** The visible rows, newest first. */
  function NewestVisible(reports: Reports, claim: EmployeeClaim): (rows: seq<Row<Report>>)
    ensures NonIncreasing(rows, CreatedAt)
    ensures forall row :: row in rows ==>
      reports.Get(row.id) == Some(row.value) && Visible(claim, row.value)
    ensures forall id: Id :: reports.Has(id) && Visible(claim, reports.slots[id].value) ==>
      Row(id, reports.slots[id].value) in rows
  {
    var visible := VisibleRows(reports, claim);
    SortKeepsMembers(visible, CreatedAt);
    SortDescending(visible, CreatedAt)
  }

  /** No stored report is listed more often than it is stored. */
  lemma NewestVisibleCounts(reports: Reports, claim: EmployeeClaim)
    ensures multiset(NewestVisible(reports, claim)) <= multiset(reports.Rows())
  {
    assert multiset(NewestVisible(reports, claim)) == multiset(VisibleRows(reports, claim));
  }

  /** `getReports`: every stored report the caller may see, and only those,
      newest first, each at most as often as it is stored. */
  function GetReports(reports: Reports, employee: Option<EmployeeClaim>): (r: Reply<seq<Row<Report>>>)
    ensures employee.None? ==> r == Err(500, REPORTS_FAILED)
    ensures employee.Some? ==> r.Ok? && r.status == 200
    ensures r.Ok? ==> NonIncreasing(r.body, CreatedAt)
    ensures r.Ok? ==> forall row :: row in r.body ==>
      reports.Get(row.id) == Some(row.value) && Visible(employee.value, row.value)
    ensures r.Ok? ==> forall id: Id :: reports.Has(id) && Visible(employee.value, reports.slots[id].value) ==>
      Row(id, reports.slots[id].value) in r.body
    ensures r.Ok? ==> multiset(r.body) <= multiset(reports.Rows())
  {
    match employee
    case None => Err(SERVER_ERROR, REPORTS_FAILED)
    case Some(claim) =>
      NewestVisibleCounts(reports, claim);
      Ok(OK, REPORTS_FETCHED, NewestVisible(reports, claim))
  }

  /** A Super Admin sees every stored report. */
  lemma SuperAdminSeesAll(reports: Reports, claim: EmployeeClaim, id: Id)
    requires claim.role == "Super Admin" && reports.Has(id)
    ensures Row(id, reports.slots[id].value) in GetReports(reports, Some(claim)).body
  {
  }

  /** A district employee sees only reports of its own district. */
  lemma DistrictEmployeeSeesOwnDistrict(reports: Reports, id: Id, role: string, d: string, k: int)
    requires role == "Employee" && d != ""
    requires 0 <= k < |GetReports(reports, Some(EmployeeClaim(id, role, Some(d)))).body|
    ensures GetReports(reports, Some(EmployeeClaim(id, role, Some(d)))).body[k].value.location.district == d
  {
  }

  /** `getReportById`: the stored report, or 404. */
  function GetReportById(reports: Reports, reportId: Id): (r: Reply<Row<Report>>)
    ensures r.Ok? <==> reports.Has(reportId)
    ensures r.Ok? ==> r.status == 200 && r.body.id == reportId && reports.Get(reportId) == Some(r.body.value)
    ensures r.Err? ==> r == Err(404, REPORT_NOT_FOUND)
  {
    match reports.Get(reportId)
    case None => Err(NOT_FOUND, REPORT_NOT_FOUND)
    case Some(report) => Ok(OK, REPORT_FETCHED, Row(reportId, report))
  }

  datatype ReportsOutcome = ReportsOutcome(reports: Reports, reply: Reply<Row<Report>>)

  /** The district check of a status update: only the exact role
      `"Employee"` is checked, against the district its token carries. */
  predicate MayUpdate(claim: EmployeeClaim, report: Report) {
    claim.role != EMPLOYEE || claim.district == Some(report.location.district)
  }

  /** `updateReportStatus`: unknown report 404 (checked first); a caller
      without an employee claim 500; a district employee outside the
      report's district 403; a status outside the enum fails validation on
      save, 500. On success only the report's status changes. */
  function UpdateReportStatus(reports: Reports, employee: Option<EmployeeClaim>, reportId: Id, status: string): (r: ReportsOutcome)
    ensures !reports.Has(reportId) ==> r == ReportsOutcome(reports, Err(404, REPORT_NOT_FOUND))
    ensures reports.Has(reportId) && employee.None? ==> r == ReportsOutcome(reports, Err(500, STATUS_FAILED))
    ensures reports.Has(reportId) && employee.Some? && employee.value.role == "Employee"
            && employee.value.district != Some(reports.slots[reportId].value.location.district) ==>
      r == ReportsOutcome(reports, Err(403, OUT_OF_DISTRICT))
    ensures r.reply.Err? ==> r.reports == reports
    ensures r.reply.Ok? <==>
      && reports.Has(reportId) && employee.Some?
      && MayUpdate(employee.value, reports.slots[reportId].value)
      && ParseStatus(status).Some?
    ensures r.reply.Ok? ==>
      var before := reports.slots[reportId].value;
      && r.reply.status == 200
      && r.reply.body == Row(reportId, before.(status := ParseStatus(status).value))
      && StatusName(r.reply.body.value.status) == status
      && r.reports.Get(reportId) == Some(r.reply.body.value)
      && (forall id: Id :: id != reportId ==> r.reports.Get(id) == reports.Get(id))
      && (ValidReport(before) ==> ValidReport(r.reply.body.value))
  {
    match reports.Get(reportId)
    case None => ReportsOutcome(reports, Err(NOT_FOUND, REPORT_NOT_FOUND))
    case Some(report) =>
      match employee
      case None => ReportsOutcome(reports, Err(SERVER_ERROR, STATUS_FAILED))
      case Some(claim) =>
        if !MayUpdate(claim, report) then ReportsOutcome(reports, Err(FORBIDDEN, OUT_OF_DISTRICT))
        else
          match ParseStatus(status)
          case None => ReportsOutcome(reports, Err(SERVER_ERROR, STATUS_FAILED))
          case Some(s) =>
            var updated := report.(status := s);
            ReportsOutcome(reports.Put(reportId, updated), Ok(OK, STATUS_UPDATED, Row(reportId, updated)))
  }

  /** For a district employee the two district rules agree: it may update
      exactly the reports it is shown. */
  lemma ScopedUpdateMatchesVisibility(claim: EmployeeClaim, report: Report)
    requires Scoped(claim)
    ensures MayUpdate(claim, report) <==> Visible(claim, report)
  {
  }

  /** Read after write: once a status update succeeds, fetching the report
      returns it with the new status and nothing else changed, and fetching
      any other report returns what it returned before. */
  lemma ReadAfterStatusUpdate(reports: Reports, employee: Option<EmployeeClaim>, reportId: Id, status: string, other: Id)
    requires UpdateReportStatus(reports, employee, reportId, status).reply.Ok?
    ensures
      var after := UpdateReportStatus(reports, employee, reportId, status).reports;
      GetReportById(after, reportId) ==
        Ok(200, REPORT_FETCHED, Row(reportId, reports.slots[reportId].value.(status := ParseStatus(status).value)))
    ensures
      var after := UpdateReportStatus(reports, employee, reportId, status).reports;
      other != reportId ==> GetReportById(after, other) == GetReportById(reports, other)
  {
  }

  // ---------------------------------------------------------------------
  // Staff accounts

  datatype StaffOutcome<+R> = StaffOutcome(staff: Staff, reply: Reply<R>)

  /** `registerEmployee`: an email already on file is 400; a record the
      schema rejects is 500; otherwise the account is stored active, under a
      fresh id, with its password hashed. */
  function RegisterEmployee(staff: Staff, crypto: Crypto, name: string, email: string, password: string,
                            role: string, district: Option<string>): (r: StaffOutcome<Id>)
    ensures FindByEmail(staff, email).Some? ==> r == StaffOutcome(staff, Err(400, EMAIL_TAKEN))
    ensures r.reply.Err? ==> r.staff == staff
    ensures r.reply.Ok? <==> FindByEmail(staff, email).None? && ValidRegistration(name, email, password, role, district)
    ensures r.reply.Ok? ==>
      && r.reply.status == 201
      && r.reply.body == staff.NextId()
      && r.staff.Get(r.reply.body) == Some(NewEmployee(crypto, name, email, password, ParseRole(role).value, district))
      && (forall id: Id :: id != r.reply.body ==> r.staff.Get(id) == staff.Get(id))
  {
    if FindByEmail(staff, email).Some? then StaffOutcome(staff, Err(BAD_REQUEST, EMAIL_TAKEN))
    else if !ValidRegistration(name, email, password, role, district) then
      StaffOutcome(staff, Err(SERVER_ERROR, REGISTRATION_FAILED))
    else
      var account := NewEmployee(crypto, name, email, password, ParseRole(role).value, district);
      StaffOutcome(staff.Insert(account), Ok(CREATED, EMPLOYEE_CREATED, staff.NextId()))
  }

  /** Registration keeps emails unique and never stores a district employee
      without a district. */
  lemma RegisterPreservesInvariants(staff: Staff, crypto: Crypto, name: string, email: string, password: string,
                                    role: string, district: Option<string>)
    requires UniqueEmails(staff) && Employees.WellFormed(staff)
    ensures UniqueEmails(RegisterEmployee(staff, crypto, name, email, password, role, district).staff)
    ensures Employees.WellFormed(RegisterEmployee(staff, crypto, name, email, password, role, district).staff)
  {
    var r := RegisterEmployee(staff, crypto, name, email, password, role, district);
    if r.reply.Ok? {
      var newId := staff.NextId();
      assert forall id: Id :: id != newId && r.staff.Has(id) ==> staff.Has(id) && r.staff.slots[id] == staff.slots[id] by {
        forall id: Id | id != newId && r.staff.Has(id)
          ensures staff.Has(id) && r.staff.slots[id] == staff.slots[id]
        {
          assert r.staff.Get(id) == staff.Get(id);
        }
      }
      assert r.staff.slots[newId].value.email == Employees.NormalizeEmail(email);
    }
  }

  /** The pre-save hook and login fit together: when the password check
      accepts the hash of a password, a freshly registered account logs in
      with the email and password it was registered with, and its token
      carries the new account's id, role and district. */
  lemma RegisterThenLogin(staff: Staff, crypto: Crypto, name: string, email: string, password: string,
                          role: string, district: Option<string>)
    requires forall s :: crypto.matches(s, crypto.hash(s))
    requires RegisterEmployee(staff, crypto, name, email, password, role, district).reply.Ok?
    ensures
      var r := RegisterEmployee(staff, crypto, name, email, password, role, district);
      AdminLogin(r.staff, crypto, email, password) ==
        Ok(200, LOGGED_IN, EmployeeSession(ClaimOf(r.reply.body, r.staff.slots[r.reply.body].value)))
  {
    var r := RegisterEmployee(staff, crypto, name, email, password, role, district);
    var newId := r.reply.body;
    var found := FindByEmail(r.staff, email);
    assert r.staff.Has(newId) && r.staff.slots[newId].value.email == Employees.NormalizeEmail(email);
    assert found.Some?;
  }

  /** An account as listed: every field but the password hash. */
  datatype StaffView = StaffView(id: Id, name: string, email: string, role: Role, district: Option<string>, isActive: bool)

  function ViewOf(id: Id, e: EmployeeAccount): StaffView {
    StaffView(id, e.name, e.email, e.role, e.district, e.isActive)
  }

  /** The listed form of each row, in order. */
  function Views(rows: seq<Row<EmployeeAccount>>): (views: seq<StaffView>)
    ensures |views| == |rows|
    ensures forall k :: 0 <= k < |rows| ==> views[k] == ViewOf(rows[k].id, rows[k].value)
  {
    seq(|rows|, k requires 0 <= k < |rows| => ViewOf(rows[k].id, rows[k].value))
  }

  /** Every stored account appears in the listing. */
  lemma ViewsListEveryone(staff: Staff)
    ensures forall id: Id :: staff.Has(id) ==> ViewOf(id, staff.slots[id].value) in Views(staff.Rows())
  {
    var rows := staff.Rows();
    forall id: Id | staff.Has(id) ensures ViewOf(id, staff.slots[id].value) in Views(rows) {
      var k :| 0 <= k < |rows| && rows[k] == Row(id, staff.slots[id].value);
      assert Views(rows)[k] == ViewOf(id, staff.slots[id].value);
    }
  }

  /** `getAllEmployees`: every stored account once, in id order, without
      its password. */
  function GetAllEmployees(staff: Staff): (r: Reply<seq<StaffView>>)
    ensures r.Ok? && r.status == 200
    ensures forall k :: 0 <= k < |r.body| ==>
      staff.Has(r.body[k].id) && r.body[k] == ViewOf(r.body[k].id, staff.slots[r.body[k].id].value)
    ensures forall k, l :: 0 <= k < l < |r.body| ==> r.body[k].id < r.body[l].id
    ensures forall id: Id :: staff.Has(id) ==> ViewOf(id, staff.slots[id].value) in r.body
  {
    ViewsListEveryone(staff);
    Ok(OK, EMPLOYEES_FETCHED, Views(staff.Rows()))
  }

  /** `updateEmployeeStatus`. `isActive` is absent when the body does not
      carry a boolean: 400. An unknown id is 404. Otherwise only the flag
      changes; the update bypasses the save hook, so the stored password
      hash is kept as it is. */
  function UpdateEmployeeStatus(staff: Staff, employeeId: Id, isActive: Option<bool>): (r: StaffOutcome<StaffView>)
    ensures isActive.None? ==> r == StaffOutcome(staff, Err(400, INVALID_IS_ACTIVE))
    ensures isActive.Some? && !staff.Has(employeeId) ==> r == StaffOutcome(staff, Err(404, EMPLOYEE_NOT_FOUND))
    ensures r.reply.Err? ==> r.staff == staff
    ensures r.reply.Ok? <==> isActive.Some? && staff.Has(employeeId)
    ensures r.reply.Ok? ==>
      var before := staff.slots[employeeId].value;
      && r.reply.status == 200
      && r.reply.message == (if isActive.value then ACTIVATED else DEACTIVATED)
      && r.staff.Get(employeeId) == Some(before.(isActive := isActive.value))
      && r.reply.body == ViewOf(employeeId, before.(isActive := isActive.value))
      && (forall id: Id :: id != employeeId ==> r.staff.Get(id) == staff.Get(id))
  {
    match isActive
    case None => StaffOutcome(staff, Err(BAD_REQUEST, INVALID_IS_ACTIVE))
    case Some(flag) =>
      match staff.Get(employeeId)
      case None => StaffOutcome(staff, Err(NOT_FOUND, EMPLOYEE_NOT_FOUND))
      case Some(account) =>
        var updated := account.(isActive := flag);
        StaffOutcome(staff.Put(employeeId, updated), Ok(OK, if flag then ACTIVATED else DEACTIVATED, ViewOf(employeeId, updated)))
  }

  /** A status change keeps the staff invariants. */
  lemma StatusChangePreservesInvariants(staff: Staff, employeeId: Id, isActive: Option<bool>)
    requires UniqueEmails(staff) && Employees.WellFormed(staff)
    ensures UniqueEmails(UpdateEmployeeStatus(staff, employeeId, isActive).staff)
    ensures Employees.WellFormed(UpdateEmployeeStatus(staff, employeeId, isActive).staff)
  {
    var r := UpdateEmployeeStatus(staff, employeeId, isActive);
    if r.reply.Ok? {
      assert forall id: Id :: r.staff.Has(id) <==> staff.Has(id) by {
        forall id: Id ensures r.staff.Has(id) <==> staff.Has(id) {
          assert id != employeeId ==> r.staff.Get(id) == staff.Get(id);
        }
      }
      assert forall id: Id :: r.staff.Has(id) ==>
        r.staff.slots[id].value.email == staff.slots[id].value.email
        && r.staff.slots[id].value.role == staff.slots[id].value.role
        && r.staff.slots[id].value.district == staff.slots[id].value.district by {
        forall id: Id | r.staff.Has(id)
          ensures r.staff.slots[id].value.email == staff.slots[id].value.email
          ensures r.staff.slots[id].value.role == staff.slots[id].value.role
          ensures r.staff.slots[id].value.district == staff.slots[id].value.district
        {
          assert r.staff.Get(id).value == r.staff.slots[id].value;
          if id != employeeId {
            assert r.staff.Get(id) == staff.Get(id);
          }
        }
      }
    }
  }

  /** With unique emails, the lookup by an account's own email finds it. */
  lemma FindsOwnAccount(staff: Staff, id: Id, email: string)
    requires UniqueEmails(staff) && staff.Has(id)
    requires Employees.NormalizeEmail(email) == staff.slots[id].value.email
    ensures FindByEmail(staff, email) == Some(id)
  {
  }

  /** Deactivation locks the account out: whatever the password, its login
      is refused with 401 and the inactive message. */
  lemma DeactivatedCannotLogin(staff: Staff, crypto: Crypto, id: Id, email: string, password: string)
    requires UniqueEmails(staff) && Employees.WellFormed(staff) && staff.Has(id)
    requires Employees.NormalizeEmail(email) == staff.slots[id].value.email
    ensures AdminLogin(UpdateEmployeeStatus(staff, id, Some(false)).staff, crypto, email, password) == Err(401, LOGIN_INACTIVE)
  {
    var after := UpdateEmployeeStatus(staff, id, Some(false)).staff;
    StatusChangePreservesInvariants(staff, id, Some(false));
    FindsOwnAccount(after, id, email);
  }

  /** Reactivation restores exactly the login the account had: the
      password hash survives the round trip. */
  lemma ReactivationRestoresLogin(staff: Staff, crypto: Crypto, id: Id, email: string, password: string)
    requires UniqueEmails(staff) && Employees.WellFormed(staff) && staff.Has(id)
    requires staff.slots[id].value.isActive
    requires Employees.NormalizeEmail(email) == staff.slots[id].value.email
    ensures
      var off := UpdateEmployeeStatus(staff, id, Some(false)).staff;
      var on := UpdateEmployeeStatus(off, id, Some(true)).staff;
      AdminLogin(on, crypto, email, password) == AdminLogin(staff, crypto, email, password)
  {
    var off := UpdateEmployeeStatus(staff, id, Some(false)).staff;
    var on := UpdateEmployeeStatus(off, id, Some(true)).staff;
    StatusChangePreservesInvariants(staff, id, Some(false));
    StatusChangePreservesInvariants(off, id, Some(true));
    FindsOwnAccount(staff, id, email);
    FindsOwnAccount(on, id, email);
    assert on.slots[id].value == staff.slots[id].value;
  }
}

/** `getHeatmapData`: report counts grouped by district, or, when a district
    is given, by block within that district. Every report counts, whatever
    its status. */
module Heatmap {
  import opened Common
  import opened Store
  import opened Reports
  import opened Analytics

  /** The query parameter narrows the data when it is present and
      non-empty. */
  predicate Filtered(district: Option<string>) {
    district.Some? && district.value != ""
  }

  /** Whether the report passes the `$match` stage (there is none without a
      district). */
  predicate Counted(report: Report, district: Option<string>) {
    !Filtered(district) || report.location.district == district.value
  }

  /** The group key: the block within a district, or the district. */
  function AreaOf(report: Report, district: Option<string>): string {
    if Filtered(district) then report.location.block else report.location.district
  }

  /** The group keys of the counted reports with ids below `n`. */
  function HeatKeys(reports: Reports, district: Option<string>, n: nat): seq<string>
    requires n <= |reports.slots|
    decreases n
  {
    if n == 0 then []
    else
      var hit := reports.Has(n - 1) && Counted(reports.slots[n - 1].value, district);
      HeatKeys(reports, district, n - 1) + (if hit then [AreaOf(reports.slots[n - 1].value, district)] else [])
  }

  /** The ids of counted reports below `n` whose key is `a`. */
  ghost function InArea(reports: Reports, district: Option<string>, a: string, n: nat): set<Id> {
    set id: Id | id < n && reports.Has(id) && Counted(reports.slots[id].value, district)
                 && AreaOf(reports.slots[id].value, district) == a
  }

  /** The ids of all counted reports below `n`. */
  ghost function Matched(reports: Reports, district: Option<string>, n: nat): set<Id> {
    set id: Id | id < n && reports.Has(id) && Counted(reports.slots[id].value, district)
  }

  lemma OccurrencesAppend(keys: seq<string>, extra: seq<string>, a: string)
    requires |extra| <= 1
    ensures Occurrences(keys + extra, a) == Occurrences(keys, a) + (if |extra| == 1 && extra[0] == a then 1 else 0)
  {
    if |extra| == 1 {
      assert (keys + extra)[..|keys|] == keys;
    } else {
      assert keys + extra == keys;
    }
  }

  /** Extending the id range by one adds the last id to an area exactly
      when that report is counted there. */
  lemma InAreaSplit(reports: Reports, district: Option<string>, a: string, n: nat)
    requires 0 < n <= |reports.slots|
    ensures n - 1 !in InArea(reports, district, a, n - 1)
    ensures InArea(reports, district, a, n) ==
      InArea(reports, district, a, n - 1)
      + (if reports.Has(n - 1) && Counted(reports.slots[n - 1].value, district)
            && AreaOf(reports.slots[n - 1].value, district) == a
         then {n - 1} else {})
  {
  }

  lemma InAreaStep(reports: Reports, district: Option<string>, a: string, n: nat)
    requires 0 < n <= |reports.slots|
    ensures |InArea(reports, district, a, n)| ==
      |InArea(reports, district, a, n - 1)|
      + (if reports.Has(n - 1) && Counted(reports.slots[n - 1].value, district)
            && AreaOf(reports.slots[n - 1].value, district) == a
         then 1 else 0)
  {
    InAreaSplit(reports, district, a, n);
  }

  /** A key occurs exactly as often as there are counted reports in its area. */
  lemma {:induction false} HeatKeysCountArea(reports: Reports, district: Option<string>, a: string, n: nat)
    requires n <= |reports.slots|
    ensures Occurrences(HeatKeys(reports, district, n), a) == |InArea(reports, district, a, n)|
    decreases n
  {
    if n > 0 {
      HeatKeysCountArea(reports, district, a, n - 1);
      InAreaStep(reports, district, a, n);
      var before := HeatKeys(reports, district, n - 1);
      if reports.Has(n - 1) && Counted(reports.slots[n - 1].value, district) {
        var key := AreaOf(reports.slots[n - 1].value, district);
        assert HeatKeys(reports, district, n) == before + [key];
        OccurrencesAppend(before, [key], a);
      } else {
        assert HeatKeys(reports, district, n) == before + [];
        OccurrencesAppend(before, [], a);
      }
    }
  }

  /** Extending the id range by one adds the last id exactly when that
      report is counted. */
  lemma MatchedSplit(reports: Reports, district: Option<string>, n: nat)
    requires 0 < n <= |reports.slots|
    ensures n - 1 !in Matched(reports, district, n - 1)
    ensures Matched(reports, district, n) ==
      Matched(reports, district, n - 1)
      + (if reports.Has(n - 1) && Counted(reports.slots[n - 1].value, district) then {n - 1} else {})
  {
  }

  lemma MatchedStep(reports: Reports, district: Option<string>, n: nat)
    requires 0 < n <= |reports.slots|
    ensures |Matched(reports, district, n)| ==
      |Matched(reports, district, n - 1)|
      + (if reports.Has(n - 1) && Counted(reports.slots[n - 1].value, district) then 1 else 0)
  {
    MatchedSplit(reports, district, n);
  }

  /** There is one key per counted report. */
  lemma {:induction false} HeatKeysLength(reports: Reports, district: Option<string>, n: nat)
    requires n <= |reports.slots|
    ensures |HeatKeys(reports, district, n)| == |Matched(reports, district, n)|
    decreases n
  {
    if n > 0 {
      HeatKeysLength(reports, district, n - 1);
      MatchedStep(reports, district, n);
    }
  }

  lemma {:induction false} OccursIffPositive(keys: seq<string>, a: string)
    ensures a in keys <==> Occurrences(keys, a) > 0
    decreases |keys|
  {
    if |keys| > 0 {
      var init := keys[..|keys| - 1];
      OccursIffPositive(init, a);
      assert keys == init + [keys[|keys| - 1]];
    }
  }

  /** One bucket per area holding at least one counted report; each bucket
      counts the reports of its area; the counts add up to the number of
      counted reports. */
  function GetHeatmap(reports: Reports, district: Option<string>): (r: seq<Bucket>)
    ensures Analytics.WellFormed(r)
    ensures forall a :: CountOf(r, a) == |InArea(reports, district, a, |reports.slots|)|
    ensures forall a :: a in Areas(r) <==> InArea(reports, district, a, |reports.slots|) != {}
    ensures Total(r) == |Matched(reports, district, |reports.slots|)|
  {
    var keys := HeatKeys(reports, district, |reports.slots|);
    HeatKeysLength(reports, district, |reports.slots|);
    forall a ensures Occurrences(keys, a) == |InArea(reports, district, a, |reports.slots|)|
                 ensures a in keys <==> Occurrences(keys, a) > 0 {
      HeatKeysCountArea(reports, district, a, |reports.slots|);
      OccursIffPositive(keys, a);
    }
    GroupCount(keys)
  }

  /** Without a district every stored report is counted. */
  lemma UnfilteredCountsEverything(reports: Reports, id: Id)
    requires reports.Has(id)
    ensures id in Matched(reports, None, |reports.slots|)
    ensures id in Matched(reports, Some(""), |reports.slots|)
  {
  }

  /** Changing a report's status leaves the heat map as it was: the
      pipeline has no status stage. */
  lemma {:induction false} HeatKeysIgnoreStatus(reports: Reports, id: Id, s: Status, district: Option<string>, n: nat)
    requires reports.Has(id) && n <= |reports.slots|
    ensures HeatKeys(reports.Put(id, reports.slots[id].value.(status := s)), district, n) == HeatKeys(reports, district, n)
    decreases n
  {
    if n > 0 {
      HeatKeysIgnoreStatus(reports, id, s, district, n - 1);
    }
  }

  lemma HeatmapIgnoresStatus(reports: Reports, id: Id, s: Status, district: Option<string>)
    requires reports.Has(id)
    ensures GetHeatmap(reports.Put(id, reports.slots[id].value.(status := s)), district) == GetHeatmap(reports, district)
  {
    HeatKeysIgnoreStatus(reports, id, s, district, |reports.slots|);
  }
}

/** Authority contacts managed by a Super Admin. */
module AuthorityAdmin {
  import opened Common
  import opened Store
  import opened Reports
  import opened Authorities

  const AUTHORITY_CREATED: string := "Authority created successfully."
  const CREATE_FAILED: string := "Server error creating authority."
  const AUTHORITY_NOT_FOUND: string := "Authority not found."
  const AUTHORITY_DELETED: string := "Authority deleted successfully."

  /** The body of a create request. */
  datatype AuthorityRequest = AuthorityRequest(district: string, block: string, locality: string, officialEmail: string)

  datatype ContactsOutcome = ContactsOutcome(contacts: Contacts, reply: Reply<Row<Authority>>)

  /** Validate, then insert unless the triple is taken (the unique index
      rejects it; the handler turns that into 500 like any other error). */
  function Save(contacts: Contacts, doc: Authority): (r: ContactsOutcome)
    ensures r.reply.Ok? <==> Valid(doc) && FindByLocation(contacts, doc.location).None?
    ensures r.reply.Err? ==> r == ContactsOutcome(contacts, Err(500, CREATE_FAILED))
    ensures r.reply.Ok? ==>
      && r.reply.status == 201
      && r.reply.body == Row(contacts.NextId(), doc)
      && r.contacts == contacts.Insert(doc)
  {
    if !Valid(doc) || FindByLocation(contacts, doc.location).Some? then
      ContactsOutcome(contacts, Err(SERVER_ERROR, CREATE_FAILED))
    else
      ContactsOutcome(contacts.Insert(doc), Ok(CREATED, AUTHORITY_CREATED, Row(contacts.NextId(), doc)))
  }

  /** `createAuthority` as written: the document is built from the location
      and a key `officialEmail` that the schema does not declare. Strict
      mode drops the unknown key, so the required `email` is never set. */
  function CreateAuthorityAsWritten(contacts: Contacts, req: AuthorityRequest): (r: ContactsOutcome)
    ensures r.reply.Ok? ==> r.reply.status == 201 && Valid(r.reply.body.value)
  {
    var doc := Authority(NormalizePlace(Place(req.district, req.block, req.locality)), "", None, None);
    Save(contacts, doc)
  }

  /** No request succeeds: every call answers 500 and stores nothing. */
  lemma AsWrittenNeverCreates(contacts: Contacts, req: AuthorityRequest)
    ensures CreateAuthorityAsWritten(contacts, req) == ContactsOutcome(contacts, Err(500, CREATE_FAILED))
  {
  }

  /** The intended behaviour: `officialEmail` is stored as the contact's
      `email`. A complete request for a free triple is stored, trimmed and
      lower-cased; anything else answers 500 and stores nothing. */
  function CreateAuthority(contacts: Contacts, req: AuthorityRequest): (r: ContactsOutcome)
    ensures r.reply.Ok? <==>
      && Trim(req.district) != "" && Trim(req.block) != "" && Trim(req.locality) != ""
      && Lower(Trim(req.officialEmail)) != ""
      && FindByLocation(contacts, NormalizePlace(Place(req.district, req.block, req.locality))).None?
    ensures r.reply.Err? ==> r == ContactsOutcome(contacts, Err(500, CREATE_FAILED))
    ensures r.reply.Ok? ==>
      && r.reply.status == 201
      && r.reply.body.id == contacts.NextId()
      && r.reply.body.value.location == NormalizePlace(Place(req.district, req.block, req.locality))
      && r.reply.body.value.email == Lower(Trim(req.officialEmail))
      && r.contacts.Get(r.reply.body.id) == Some(r.reply.body.value)
      && (forall id: Id :: id != r.reply.body.id ==> r.contacts.Get(id) == contacts.Get(id))
  {
    var doc := NewAuthority(Place(req.district, req.block, req.locality), req.officialEmail, None, None);
    Save(contacts, doc)
  }

  /** A complete request succeeds under the intended behaviour exactly when
      its triple is free: where the code as written always fails. */
  lemma CreateAuthoritySucceeds(contacts: Contacts, req: AuthorityRequest)
    requires Trim(req.district) != "" && Trim(req.block) != "" && Trim(req.locality) != ""
    requires Lower(Trim(req.officialEmail)) != ""
    requires FindByLocation(contacts, NormalizePlace(Place(req.district, req.block, req.locality))).None?
    ensures CreateAuthority(contacts, req).reply.Ok?
    ensures CreateAuthorityAsWritten(contacts, req).reply.Err?
  {
  }

  /** A concrete request on an empty collection: refused as written,
      stored as intended. */
  lemma CreateAuthorityExample()
    ensures CreateAuthorityAsWritten(Table([]), AuthorityRequest("Ranchi", "Namkum", "Main Road", "ward@gov.in")).reply
      == Err(500, CREATE_FAILED)
    ensures CreateAuthority(Table([]), AuthorityRequest("Ranchi", "Namkum", "Main Road", "ward@gov.in")).reply.Ok?
  {
    var req := AuthorityRequest("Ranchi", "Namkum", "Main Road", "ward@gov.in");
    NotBlank(req.district);
    NotBlank(req.block);
    NotBlank(req.locality);
    NotBlank(req.officialEmail);
    assert |Lower(Trim(req.officialEmail))| == |Trim(req.officialEmail)|;
    CreateAuthoritySucceeds(Table([]), req);
  }

  /** A string that starts with a visible character survives trimming. */
  lemma NotBlank(s: string)
    requires |s| > 0 && !IsSpace(s[0])
    ensures Trim(s) != ""
  {
    TrimSpec(s);
  }

  /** Creation never stores a second contact for a triple. */
  lemma CreatePreservesUniqueLocations(contacts: Contacts, req: AuthorityRequest)
    requires UniqueLocations(contacts)
    ensures UniqueLocations(CreateAuthority(contacts, req).contacts)
  {
    var r := CreateAuthority(contacts, req);
    if r.reply.Ok? {
      var newId := contacts.NextId();
      var place := r.reply.body.value.location;
      forall i: Id, j: Id | r.contacts.Has(i) && r.contacts.Has(j) && i != j
        ensures r.contacts.slots[i].value.location != r.contacts.slots[j].value.location
      {
        assert r.contacts.Get(i) == Some(r.contacts.slots[i].value);
        assert r.contacts.Get(j) == Some(r.contacts.slots[j].value);
        if i == newId {
          assert contacts.Get(j) == r.contacts.Get(j);
        } else if j == newId {
          assert contacts.Get(i) == r.contacts.Get(i);
        } else {
          assert contacts.Get(i) == r.contacts.Get(i);
          assert contacts.Get(j) == r.contacts.Get(j);
        }
      }
    }
  }

  /** `getAllAuthorities`: every stored contact, each once. */
  function GetAllAuthorities(contacts: Contacts): (r: seq<Row<Authority>>)
    ensures forall k :: 0 <= k < |r| ==> contacts.Get(r[k].id) == Some(r[k].value)
    ensures forall k, l :: 0 <= k < l < |r| ==> r[k].id != r[l].id
    ensures forall id: Id :: contacts.Has(id) ==> Row(id, contacts.slots[id].value) in r
  {
    contacts.Rows()
  }

  /** `deleteAuthority`: 404 for an unknown id; otherwise the contact is
      gone and nothing else changes. */
  function DeleteAuthority(contacts: Contacts, authorityId: Id): (r: ContactsOutcome)
    ensures !contacts.Has(authorityId) ==> r.contacts == contacts && r.reply == Err(404, AUTHORITY_NOT_FOUND)
    ensures contacts.Has(authorityId) ==>
      && r.reply.Ok? && r.reply.status == 200
      && r.reply.body == Row(authorityId, contacts.slots[authorityId].value)
      && !r.contacts.Has(authorityId)
      && (forall id: Id :: id != authorityId ==> r.contacts.Get(id) == contacts.Get(id))
  {
    match contacts.Get(authorityId)
    case None => ContactsOutcome(contacts, Err(NOT_FOUND, AUTHORITY_NOT_FOUND))
    case Some(a) => ContactsOutcome(contacts.Delete(authorityId), Ok(OK, AUTHORITY_DELETED, Row(authorityId, a)))
  }

  /** Deleting frees the triple: the same request can then be stored again. */
  lemma DeleteFreesLocation(contacts: Contacts, req: AuthorityRequest)
    requires UniqueLocations(contacts)
    requires FindByLocation(contacts, NormalizePlace(Place(req.district, req.block, req.locality))).Some?
    ensures
      var id := FindByLocation(contacts, NormalizePlace(Place(req.district, req.block, req.locality))).value;
      FindByLocation(DeleteAuthority(contacts, id).contacts, NormalizePlace(Place(req.district, req.block, req.locality))).None?
  {
    var place := NormalizePlace(Place(req.district, req.block, req.locality));
    var id := FindByLocation(contacts, place).value;
    var after := DeleteAuthority(contacts, id).contacts;
    forall other: Id | after.Has(other) ensures after.slots[other].value.location != place {
      assert after.Get(other) == contacts.Get(other);
    }
  }
}

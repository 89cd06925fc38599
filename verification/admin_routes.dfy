/** The admin router: which middleware runs in front of each controller.
    Authentication always runs first; the role gate, where present, runs on
    what authentication attached. */
module AdminRoutes {
  import opened Common
  import opened Tokens
  import opened Middleware
  import opened Permissions

  datatype Route =
    | Login
    | ListReports | ReportDetail | UpdateReportStatus
    | RegisterEmployee | ListEmployees | UpdateEmployeeStatus
    | Heatmap
    | CreateAuthority | ListAuthorities | DeleteAuthority

  /** What a route demands before its controller runs. */
  datatype Guard = Public | EmployeeToken | SuperAdminOnly

  function GuardOf(route: Route): Guard {
    match route
    case Login => Public
    case ListReports | ReportDetail | UpdateReportStatus => EmployeeToken
    case RegisterEmployee | ListEmployees | UpdateEmployeeStatus => SuperAdminOnly
    case Heatmap => SuperAdminOnly
    case CreateAuthority | ListAuthorities | DeleteAuthority => SuperAdminOnly
  }

  /** Run the route's middleware chain on the request's `Authorization`
      header. `Next` carries the `req.employee` the controller sees. */
  function Admit(route: Route, header: Option<string>, verify: Verifier): (g: Gate<Option<EmployeeClaim>>)
    ensures GuardOf(route) == Public ==> g == Next(None)
    ensures GuardOf(route) == EmployeeToken ==> g == AuthenticateEmployee(header, verify)
    ensures GuardOf(route) == SuperAdminOnly ==>
      (g.Next? <==> && BearerToken(header).Some?
                    && verify(BearerToken(header).value).Some?
                    && verify(BearerToken(header).value).value.employee.Some?
                    && verify(BearerToken(header).value).value.employee.value.role == "Super Admin")
    ensures GuardOf(route) == SuperAdminOnly && g.Next? ==>
      g.claim == verify(BearerToken(header).value).value.employee
  {
    match GuardOf(route)
    case Public => Next(None)
    case EmployeeToken => AuthenticateEmployee(header, verify)
    case SuperAdminOnly =>
      match AuthenticateEmployee(header, verify)
      case Deny(status, message) => Deny(status, message)
      case Next(employee) =>
        match IsSuperAdmin(employee)
        case Deny(status, message) => Deny(status, message)
        case Next(claim) => Next(Some(claim))
  }

  /** Authentication precedes the role gate: a protected route answers a
      missing or malformed header with 401, never with 403. */
  lemma AuthenticationFirst(route: Route, header: Option<string>, verify: Verifier)
    requires GuardOf(route) != Public
    requires BearerToken(header).None? || verify(BearerToken(header).value).None?
    ensures Admit(route, header, verify).Deny?
    ensures Admit(route, header, verify).status == 401
  {
  }

  /** A valid token of a district employee opens the report routes but is
      refused with 403 on every Super Admin route. */
  lemma DistrictEmployeeScope(route: Route, header: Option<string>, verify: Verifier, claim: EmployeeClaim)
    requires BearerToken(header).Some?
    requires verify(BearerToken(header).value) == Some(Payload(None, Some(claim)))
    requires claim.role == "Employee"
    ensures GuardOf(route) == EmployeeToken ==> Admit(route, header, verify) == Next(Some(claim))
    ensures GuardOf(route) == SuperAdminOnly ==> Admit(route, header, verify) == Deny(403, SUPER_ADMIN_REQUIRED)
  {
  }

  /** A citizen token passes authentication on the report routes with no
      employee attached, and is refused with 403 on Super Admin routes. */
  lemma CitizenTokenOnAdminRoutes(route: Route, header: Option<string>, verify: Verifier, user: UserClaim)
    requires BearerToken(header).Some?
    requires verify(BearerToken(header).value) == Some(Payload(Some(user), None))
    ensures GuardOf(route) == EmployeeToken ==> Admit(route, header, verify) == Next(None)
    ensures GuardOf(route) == SuperAdminOnly ==> Admit(route, header, verify) == Deny(403, SUPER_ADMIN_REQUIRED)
  {
  }
}

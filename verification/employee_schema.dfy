/** Employee accounts: the role enum, the district that only a district
    employee must have, the `isActive` flag and the password hook. */
module Employees {
  import opened Common
  import opened Store
  import opened Tokens

  /** `role: { enum: ['Super Admin', 'Employee'] }`. */
  datatype Role = SuperAdmin | DistrictEmployee

  const SUPER_ADMIN: string := "Super Admin"
  const EMPLOYEE: string := "Employee"

  /** The string stored in the record and carried in the token. */
  function RoleName(r: Role): string {
    match r
    case SuperAdmin => SUPER_ADMIN
    case DistrictEmployee => EMPLOYEE
  }

  /** Enum validation: only the two spellings are roles. */
  function ParseRole(s: string): (r: Option<Role>)
    ensures r.Some? <==> s == "Super Admin" || s == "Employee"
    ensures r.Some? ==> RoleName(r.value) == s
  {
    if s == SUPER_ADMIN then Some(SuperAdmin)
    else if s == EMPLOYEE then Some(DistrictEmployee)
    else None
  }

  lemma RoleNameRoundTrip(r: Role)
    ensures ParseRole(RoleName(r)) == Some(r)
  {
  }

  datatype EmployeeAccount = EmployeeAccount(
    name: string,
    email: string,
    passwordHash: string,
    role: Role,
    district: Option<string>,
    isActive: bool)

  type Staff = Table<EmployeeAccount>

  /** The `trim` and `lowercase` setters on `email` (also applied to query
      values). */
  function NormalizeEmail(email: string): string {
    Lower(Trim(email))
  }

  /** `location.district` is required exactly for the `Employee` role. */
  predicate DistrictRequired(role: Role) {
    role == DistrictEmployee
  }

  /** The schema's validators, on the values handed to `new Employee(...)`:
      name, email and password present, role in the enum, district present
      when the role requires one. */
  predicate ValidRegistration(name: string, email: string, password: string, role: string, district: Option<string>) {
    && Trim(name) != ""
    && NormalizeEmail(email) != ""
    && password != ""
    && ParseRole(role).Some?
    && (DistrictRequired(ParseRole(role).value) ==> district.Some? && district.value != "")
  }

  /** Omitting the district is valid for a Super Admin and invalid for a
      district employee, other fields being valid. */
  lemma DistrictRequiredIffEmployee(name: string, email: string, password: string, role: string)
    requires Trim(name) != "" && NormalizeEmail(email) != "" && password != ""
    requires ParseRole(role).Some?
    ensures ValidRegistration(name, email, password, role, None) <==> role == "Super Admin"
  {
  }

  /** A freshly built account: trimmed name, normalised email, the
      password hashed by the pre-save hook (a new document's password
      counts as modified), and `isActive` at its default `true`. No
      operation saves an account with an unmodified password: the status
      update goes through `findByIdAndUpdate`, which skips the hook. */
  function NewEmployee(crypto: Crypto, name: string, email: string, password: string, role: Role, district: Option<string>): (e: EmployeeAccount)
    ensures e.isActive
    ensures e.passwordHash == crypto.hash(password)
    ensures e.role == role && e.district == district
    ensures e.email == Lower(Trim(email)) && e.name == Trim(name)
  {
    EmployeeAccount(Trim(name), NormalizeEmail(email), crypto.hash(password), role, district, true)
  }

  /** The `unique` index on `email`. */
  ghost predicate UniqueEmails(staff: Staff) {
    forall i: Id, j: Id :: staff.Has(i) && staff.Has(j) && i != j ==>
      staff.slots[i].value.email != staff.slots[j].value.email
  }

  /** Every stored account satisfies the schema: a district employee has a
      district. */
  ghost predicate WellFormed(staff: Staff) {
    forall i: Id :: staff.Has(i) && DistrictRequired(staff.slots[i].value.role) ==>
      staff.slots[i].value.district.Some?
  }

  /** `Employee.findOne({ email })`. */
  function FindByEmail(staff: Staff, email: string): (r: Option<Id>)
    ensures r.Some? ==> staff.Has(r.value) && staff.slots[r.value].value.email == NormalizeEmail(email)
    ensures r.None? ==> forall id: Id :: staff.Has(id) ==> staff.slots[id].value.email != NormalizeEmail(email)
  {
    var key := NormalizeEmail(email);
    FindFirst(staff, (e: EmployeeAccount) => e.email == key)
  }

  /** What a login token says about the account: its id, role name and
      district. */
  function ClaimOf(id: Id, e: EmployeeAccount): (c: EmployeeClaim)
    ensures c.id == id && c.district == e.district
    ensures c.role == "Super Admin" <==> e.role == SuperAdmin
  {
    EmployeeClaim(id, RoleName(e.role), e.district)
  }
}

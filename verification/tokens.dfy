/** Password/OTP hashing and bearer tokens. bcrypt and the JWT library are
    not modelled: hashing is an arbitrary pair of functions handed in by
    the caller, and a signed token is represented by the payload it carries
    and its lifetime. Verification (signature and expiry) is a function from
    the token text to the decoded payload, failing with `None`. */
module Tokens {
  import opened Common
  import opened Store

  /** `bcrypt.hash` and `bcrypt.compare`. */
  datatype Crypto = Crypto(hash: string -> string, matches: (string, string) -> bool)

  /** Payload of a citizen token: `{ user: { id } }`. */
  datatype UserClaim = UserClaim(id: Id)

  /** Payload of an employee token: `{ employee: { id, role, location } }`.
      The role is the string the token carries; `district` is
      `location.district`, absent for a Super Admin without one. */
  datatype EmployeeClaim = EmployeeClaim(id: Id, role: string, district: Option<string>)

  /** A decoded token. Both middlewares accept any validly signed token and
      read only their own slot, so either slot may be missing. */
  datatype Payload = Payload(user: Option<UserClaim>, employee: Option<EmployeeClaim>)

  /** `jwt.verify` with the server secret at the current instant. */
  type Verifier = string -> Option<Payload>

  /** A token as `jwt.sign` issues it: what it carries and how long (in
      seconds) it stays valid. */
  datatype Session = Session(payload: Payload, lifetime: nat)

  /** `expiresIn: '5d'` for citizens. */
  const CITIZEN_TOKEN_LIFETIME: nat := 5 * 24 * 60 * 60

  /** `expiresIn: '8h'` for employees. */
  const EMPLOYEE_TOKEN_LIFETIME: nat := 8 * 60 * 60

  function CitizenSession(id: Id): (s: Session)
    ensures s.payload.user == Some(UserClaim(id)) && s.payload.employee.None?
    ensures s.lifetime == 432000
  {
    Session(Payload(Some(UserClaim(id)), None), CITIZEN_TOKEN_LIFETIME)
  }

  function EmployeeSession(claim: EmployeeClaim): (s: Session)
    ensures s.payload.employee == Some(claim) && s.payload.user.None?
    ensures s.lifetime == 28800
  {
    Session(Payload(None, Some(claim)), EMPLOYEE_TOKEN_LIFETIME)
  }
}
